/**
 * Retrieval metrics over graded relevance labels. Gains are integers, scores are exact reals, and the position
 * discount 1/log2(i+2) is any positive non-increasing sequence.
 */
module Ranking {
  import opened Seqs

  datatype Judgement = Judgement(toolId: string, relevance: int)

  /** The relevance of the first label for `id`, zero when it is unlabelled. */
  function RelevanceOf(id: string, labels: seq<Judgement>): int {
    if labels == [] then 0
    else if labels[0].toolId == id then labels[0].relevance
    else RelevanceOf(id, labels[1..])
  }

  /** The first label that names a tool decides. */
  lemma {:induction false} RelevanceIsFirstLabel(id: string, labels: seq<Judgement>, i: nat)
    requires i < |labels| && labels[i].toolId == id && forall j :: 0 <= j < i ==> labels[j].toolId != id
    ensures RelevanceOf(id, labels) == labels[i].relevance
  {
    if i > 0 {
      RelevanceIsFirstLabel(id, labels[1..], i - 1);
    }
  }

  lemma {:induction false} UnlabelledIsIrrelevant(id: string, labels: seq<Judgement>)
    requires forall i :: 0 <= i < |labels| ==> labels[i].toolId != id
    ensures RelevanceOf(id, labels) == 0
  {
    if labels != [] {
      UnlabelledIsIrrelevant(id, labels[1..]);
    }
  }

  function Gains(ranked: seq<string>, labels: seq<Judgement>): seq<int> {
    Map(ranked, (id: string) => RelevanceOf(id, labels))
  }

  /** The relevant entries of a list of relevances: those of at least 1. */
  function Relevant(gains: seq<int>): seq<int> {
    if gains == [] then []
    else if gains[0] >= 1 then [gains[0]] + Relevant(gains[1..])
    else Relevant(gains[1..])
  }

  function Relevances(labels: seq<Judgement>): seq<int> {
    Map(labels, (l: Judgement) => l.relevance)
  }

  /** How many of `n` positions a cutoff `k` leaves. */
  function Top(k: int, n: nat): nat {
    if k < 0 then 0 else if k < n then k else n
  }

  lemma TopIsCutoff(k: int, n: nat, i: nat)
    ensures i < Top(k, n) <==> i < k && i < n
  {
  }

  ghost predicate Discount(disc: nat -> real) {
    && (forall i :: disc(i) > 0.0)
    && (forall i: nat, j: nat :: i <= j ==> disc(j) <= disc(i))
  }

  ghost predicate StrictDiscount(disc: nat -> real) {
    Discount(disc) && forall i: nat, j: nat :: i < j ==> disc(j) < disc(i)
  }

  /** Discounted gain of the first `n` entries. */
  function Dcg(gains: seq<int>, disc: nat -> real, n: nat): real
    requires n <= |gains|
  {
    if n == 0 then 0.0 else Dcg(gains, disc, n - 1) + gains[n - 1] as real * disc(n - 1)
  }

  /** Sum of the first `n` entries. */
  function SumTo(s: seq<int>, n: nat): int
    requires n <= |s|
  {
    if n == 0 then 0 else SumTo(s, n - 1) + s[n - 1]
  }

  ghost predicate Descending(s: seq<int>) {
    forall i, j :: 0 <= i < j < |s| ==> s[i] >= s[j]
  }

  // ---- the ideal ordering ----

  /** Insert into a descending list, in front of anything smaller. */
  function Insert(x: int, s: seq<int>): seq<int> {
    if s == [] || x > s[0] then [x] + s else [s[0]] + Insert(x, s[1..])
  }

  function SortedDown(s: seq<int>): seq<int> {
    if s == [] then [] else Insert(s[0], SortedDown(s[1..]))
  }

  lemma {:induction false} InsertDescends(x: int, s: seq<int>)
    requires Descending(s)
    ensures Descending(Insert(x, s))
    ensures forall i :: 0 <= i < |Insert(x, s)| ==> Insert(x, s)[i] <= x || (s != [] && Insert(x, s)[i] <= s[0])
  {
    if s != [] && x <= s[0] {
      InsertDescends(x, s[1..]);
      DescendingCons(s[0], Insert(x, s[1..]));
    } else {
      DescendingCons(x, s);
    }
  }

  lemma DescendingCons(x: int, s: seq<int>)
    requires Descending(s) && forall i :: 0 <= i < |s| ==> s[i] <= x
    ensures Descending([x] + s)
  {
  }

  lemma {:induction false} InsertAdds(x: int, s: seq<int>)
    ensures multiset(Insert(x, s)) == multiset{x} + multiset(s)
  {
    if s != [] && x <= s[0] {
      InsertAdds(x, s[1..]);
      HeadAndTail(s);
    }
  }

  lemma {:induction false} SortedDownSorts(s: seq<int>)
    ensures Descending(SortedDown(s)) && multiset(SortedDown(s)) == multiset(s)
  {
    if s != [] {
      SortedDownSorts(s[1..]);
      InsertDescends(s[0], SortedDown(s[1..]));
      InsertAdds(s[0], SortedDown(s[1..]));
      HeadAndTail(s);
    }
  }

  /** A descending arrangement of given numbers is unique. */
  lemma {:induction false} DescendingIsUnique(a: seq<int>, b: seq<int>)
    requires Descending(a) && Descending(b) && multiset(a) == multiset(b)
    ensures a == b
  {
    assert |multiset(a)| == |a| && |multiset(b)| == |b|;
    if a != [] {
      SameMaximum(a, b);
      HeadAndTail(a);
      HeadAndTail(b);
      assert multiset(a[1..]) == multiset(a) - multiset{a[0]};
      assert multiset(b[1..]) == multiset(b) - multiset{a[0]};
      DescendingIsUnique(a[1..], b[1..]);
    }
  }

  lemma SameMaximum(a: seq<int>, b: seq<int>)
    requires Descending(a) && Descending(b) && multiset(a) == multiset(b) && a != [] && b != []
    ensures a[0] == b[0]
  {
    assert a[0] in multiset(b) && b[0] in multiset(a);
  }

  /** The insertion sort of `idealDCG`, in place: adjacent swaps, largest first. */
  method SortDescending(a: array<int>)
    modifies a
    ensures a[..] == SortedDown(old(a[..]))
  {
    for i := 0 to a.Length
      invariant Descending(a[..i])
      invariant multiset(a[..]) == multiset(old(a[..]))
    {
      SinkIn(a, i);
    }
    assert a[..a.Length] == a[..];
    SortedDownSorts(old(a[..]));
    DescendingIsUnique(a[..], SortedDown(old(a[..])));
  }

  method SinkIn(a: array<int>, i: nat)
    requires i < a.Length && Descending(a[..i])
    modifies a
    ensures Descending(a[..i + 1])
    ensures multiset(a[..]) == multiset(old(a[..]))
  {
    var j := i;
    while j > 0 && a[j] > a[j - 1]
      invariant 0 <= j <= i
      invariant forall p, q :: 0 <= p < q <= i && q != j ==> a[p] >= a[q]
      invariant multiset(a[..]) == multiset(old(a[..]))
    {
      SwapBack(a, j);
      j := j - 1;
    }
  }

  method SwapBack(a: array<int>, j: nat)
    requires 0 < j < a.Length
    modifies a
    ensures a[j] == old(a[j - 1]) && a[j - 1] == old(a[j])
    ensures forall p :: 0 <= p < a.Length && p != j && p != j - 1 ==> a[p] == old(a[p])
    ensures multiset(a[..]) == old(multiset(a[..]))
  {
    a[j], a[j - 1] := a[j - 1], a[j];
  }

  /** The relevances of at least 1, best first. */
  function Ideal(labels: seq<Judgement>): seq<int> {
    SortedDown(Relevant(Relevances(labels)))
  }

  method IdealDcg(labels: seq<Judgement>, k: int, disc: nat -> real) returns (idcg: real)
    ensures idcg == Dcg(Ideal(labels), disc, Top(k, |Ideal(labels)|))
  {
    var picked := PickRelevant(labels);
    var rels := new int[|picked|](i requires 0 <= i < |picked| => picked[i]);
    assert rels[..] == picked;
    SortDescending(rels);
    idcg := Discounted(rels, Top(k, rels.Length), disc);
  }

  method Discounted(rels: array<int>, n: nat, disc: nat -> real) returns (dcg: real)
    requires n <= rels.Length
    ensures dcg == Dcg(rels[..], disc, n)
  {
    dcg := 0.0;
    for i := 0 to n
      invariant dcg == Dcg(rels[..], disc, i)
    {
      dcg := dcg + rels[i] as real * disc(i);
    }
  }

  method PickRelevant(labels: seq<Judgement>) returns (picked: seq<int>)
    ensures picked == Relevant(Relevances(labels))
  {
    picked := [];
    for i := 0 to |labels|
      invariant picked == Relevant(Relevances(labels[..i]))
    {
      assert Relevances(labels[..i + 1]) == Relevances(labels[..i]) + [labels[i].relevance];
      RelevantConcat(Relevances(labels[..i]), [labels[i].relevance]);
      if labels[i].relevance >= 1 {
        picked := picked + [labels[i].relevance];
      }
    }
    assert labels[..|labels|] == labels;
  }

  lemma {:induction false} RelevantConcat(a: seq<int>, b: seq<int>)
    ensures Relevant(a + b) == Relevant(a) + Relevant(b)
  {
    if a == [] {
      assert a + b == b;
    } else {
      RelevantConcat(a[1..], b);
      assert (a + b)[1..] == a[1..] + b;
      Associate([a[0]], Relevant(a[1..]), Relevant(b));
    }
  }

  // ---- nDCG ----

  /** `q` is `part` over `whole`, and zero when the whole is. */
  ghost predicate IsShare(q: real, part: real, whole: real) {
    if whole == 0.0 then q == 0.0 else q * whole == part
  }

  /** The score is DCG over ideal DCG. */
  ghost predicate IsNdcg(score: real, ranked: seq<string>, labels: seq<Judgement>, k: int, disc: nat -> real) {
    IsShare(score, Dcg(Gains(ranked, labels), disc, Top(k, |ranked|)),
            Dcg(Ideal(labels), disc, Top(k, |Ideal(labels)|)))
  }

  method Ndcg(ranked: seq<string>, labels: seq<Judgement>, k: int, disc: nat -> real) returns (score: real)
    ensures IsNdcg(score, ranked, labels, k, disc)
    ensures Discount(disc) && (k <= 0 || forall i :: 0 <= i < |labels| ==> labels[i].relevance < 1) ==> score == 0.0
  {
    var dcg := 0.0;
    for i := 0 to Top(k, |ranked|)
      invariant dcg == Dcg(Gains(ranked, labels), disc, i)
    {
      var rel := RelevanceOf(ranked[i], labels);
      if rel == 0 {
        continue;
      }
      dcg := dcg + rel as real * disc(i);
    }
    var idcg := IdealDcg(labels, k, disc);
    if Discount(disc) {
      IdealIsPositiveIff(labels, k, disc);
    }
    if idcg == 0.0 {
      return 0.0;
    }
    Cancels(dcg, idcg);
    return dcg / idcg;
  }

  lemma Cancels(a: real, b: real)
    requires b != 0.0
    ensures a / b * b == a
  {
  }

  lemma GradeMoves(y: int, x: int, d: real)
    ensures (y - x) as real * d == y as real * d - x as real * d
  {
    var a, b := y as real, x as real;
    assert (y - x) as real == a - b;
    SplitWeight(a, b, d);
  }

  /** A relevance at position `i` is worth `disc(i)` for each grade, there and nowhere else; no relevance, nothing. */
  lemma {:induction false} DcgMoves(g: seq<int>, disc: nat -> real, n: nat, i: nat, y: int)
    requires n <= |g| && i < |g|
    ensures Dcg(g[i := y], disc, n) == Dcg(g, disc, n) + (if i < n then (y - g[i]) as real * disc(i) else 0.0)
    ensures (forall j :: 0 <= j < n ==> g[j] == 0) ==> Dcg(g, disc, n) == 0.0
  {
    if n > 0 {
      DcgMoves(g, disc, n - 1, i, y);
      if i == n - 1 {
        GradeMoves(y, g[i], disc(i));
        assert Dcg(g[i := y], disc, n) == Dcg(g, disc, i) + y as real * disc(i);
      }
    }
  }

  // ---- a duplicate-free ranking draws its gains from distinct labels ----

  /** Exactly the grades of at least 1 are relevant, each as often as it occurs. */
  lemma {:induction false} RelevantCounts(gains: seq<int>, x: int)
    ensures multiset(Relevant(gains))[x] == if x >= 1 then multiset(gains)[x] else 0
  {
    if gains != [] {
      RelevantCounts(gains[1..], x);
      HeadAndTail(gains);
      if gains[0] >= 1 {
        assert multiset(Relevant(gains)) == multiset{gains[0]} + multiset(Relevant(gains[1..]));
      }
    }
  }

  lemma {:induction false} RelevantAll(gains: seq<int>)
    ensures |Relevant(gains)| <= |gains|
    ensures Sum(gains) <= Sum(Relevant(gains))
    ensures forall x :: x in Relevant(gains) ==> x >= 1
  {
    if gains != [] {
      RelevantAll(gains[1..]);
    }
  }

  lemma WithoutRelevant(gains: seq<int>, j: nat)
    requires j < |gains|
    ensures multiset(Relevant(gains)) ==
            multiset(Relevant(Without(gains, j))) + (if gains[j] >= 1 then multiset{gains[j]} else multiset{})
  {
    SplitAround(gains, j);
    RelevantMiddle(gains[..j], gains[j], gains[j + 1..]);
  }

  lemma SplitAround(gains: seq<int>, j: nat)
    requires j < |gains|
    ensures gains[..j] + ([gains[j]] + gains[j + 1..]) == gains
  {
  }

  lemma RelevantMiddle(a: seq<int>, x: int, b: seq<int>)
    ensures multiset(Relevant(a + ([x] + b))) ==
            multiset(Relevant(a + b)) + (if x >= 1 then multiset{x} else multiset{})
  {
    RelevantConcat(a, [x] + b);
    RelevantConcat([x], b);
    RelevantConcat(a, b);
    RelevantSingle(x);
    MiddleOut(Relevant(a), Relevant([x]), Relevant(b));
  }

  lemma RelevantSingle(x: int)
    ensures Relevant([x]) == if x >= 1 then [x] else []
  {
    assert [x][1..] == [];
  }

  lemma {:induction false} GainsFromDistinctLabels(ranked: seq<string>, labels: seq<Judgement>)
    requires NoDup(ranked)
    ensures multiset(Relevant(Gains(ranked, labels))) <= multiset(Relevant(Relevances(labels)))
  {
    var gains := Gains(ranked, labels);
    if labels == [] {
      NothingRelevant(gains);
    } else {
      var l, rest := labels[0], labels[1..];
      assert Relevances(labels) == [l.relevance] + Relevances(rest);
      if l.toolId in ranked {
        var j :| 0 <= j < |ranked| && ranked[j] == l.toolId;
        GainsWithout(ranked, labels, j);
        GainsFromDistinctLabels(Without(ranked, j), rest);
        WithoutRelevant(gains, j);
      } else {
        GainsFromDistinctLabels(ranked, rest);
        assert gains == Gains(ranked, rest);
      }
    }
  }

  /** The tool of the first label taken out of the ranking, and the label with it. */
  lemma GainsWithout(ranked: seq<string>, labels: seq<Judgement>, j: nat)
    requires NoDup(ranked) && labels != [] && j < |ranked| && ranked[j] == labels[0].toolId
    ensures NoDup(Without(ranked, j))
    ensures Without(Gains(ranked, labels), j) == Gains(Without(ranked, j), labels[1..])
  {
  }

  lemma {:induction false} NothingRelevant(gains: seq<int>)
    requires forall i :: 0 <= i < |gains| ==> gains[i] < 1
    ensures Relevant(gains) == []
  {
    if gains != [] {
      NothingRelevant(gains[1..]);
    }
  }

  // ---- prefix sums of the ideal ordering dominate ----

  lemma {:induction false} SumWithout(s: seq<int>, j: nat)
    requires j < |s|
    ensures Sum(s) == Sum(Without(s, j)) + s[j]
    ensures multiset(s) == multiset(Without(s, j)) + multiset{s[j]}
  {
    assert s == s[..j] + ([s[j]] + s[j + 1..]);
    SumConcat(s[..j], [s[j]] + s[j + 1..]);
    SumConcat(s[..j], s[j + 1..]);
  }

  lemma {:induction false} SumToIsSum(s: seq<int>, n: nat)
    requires n <= |s|
    ensures SumTo(s, n) == Sum(s[..n])
  {
    if n > 0 {
      SumToIsSum(s, n - 1);
      assert s[..n] == s[..n - 1] + [s[n - 1]];
      SumSnoc(s[..n - 1], s[n - 1]);
    }
  }

  /** Dropping the first entry of a descending list cannot raise the sum of its first `n` entries. */
  lemma {:induction false} TailSum(s: seq<int>, n: nat)
    requires Descending(s) && n < |s|
    ensures SumTo(s[1..], n) <= SumTo(s, n)
    ensures SumTo(s, n + 1) == s[0] + SumTo(s[1..], n)
  {
    if n > 0 {
      TailSum(s, n - 1);
    }
  }

  /** Any selection from a descending list sums to at most as many of its first entries. */
  lemma {:induction false} TopSum(p: seq<int>, s: seq<int>)
    requires Descending(s) && multiset(p) <= multiset(s)
    ensures |p| <= |s| && Sum(p) <= SumTo(s, |p|)
    decreases |s|
  {
    SelectionSize(p, s);
    if p != [] {
      if s[0] in p {
        var j :| 0 <= j < |p| && p[j] == s[0];
        TakeFirst(p, s, j);
        TopSum(Without(p, j), s[1..]);
        TailSum(s, |p| - 1);
      } else {
        SkipFirst(p, s);
        TopSum(p, s[1..]);
        TailSum(s, |p|);
      }
    }
  }

  lemma SelectionSize(p: seq<int>, s: seq<int>)
    requires multiset(p) <= multiset(s)
    ensures |p| <= |s|
  {
    assert |multiset(p)| == |p| && |multiset(s)| == |s|;
    SubMultisetSize(multiset(p), multiset(s));
  }

  lemma TakeFirst(p: seq<int>, s: seq<int>, j: nat)
    requires multiset(p) <= multiset(s) && s != [] && j < |p| && p[j] == s[0]
    ensures multiset(Without(p, j)) <= multiset(s[1..])
    ensures Sum(p) == Sum(Without(p, j)) + s[0]
  {
    HeadAndTail(s);
    SumWithout(p, j);
    CancelOne(multiset(Without(p, j)), multiset(s[1..]), s[0]);
  }

  lemma SkipFirst(p: seq<int>, s: seq<int>)
    requires multiset(p) <= multiset(s) && s != [] && s[0] !in p
    ensures multiset(p) <= multiset(s[1..])
  {
    HeadAndTail(s);
    CancelAbsent(multiset(p), multiset(s[1..]), s[0]);
  }

  lemma CancelOne(a: multiset<int>, b: multiset<int>, x: int)
    requires a + multiset{x} <= multiset{x} + b
    ensures a <= b
  {
    forall y
      ensures a[y] <= b[y]
    {
      assert (a + multiset{x})[y] <= (multiset{x} + b)[y];
    }
  }

  lemma CancelAbsent(a: multiset<int>, b: multiset<int>, x: int)
    requires a <= multiset{x} + b && x !in a
    ensures a <= b
  {
    forall y
      ensures a[y] <= b[y]
    {
      assert a[y] <= (multiset{x} + b)[y];
    }
  }

  lemma SubMultisetSize(a: multiset<int>, b: multiset<int>)
    requires a <= b
    ensures |a| <= |b|
  {
    assert b == a + (b - a);
  }

  lemma {:induction false} PrefixSumsGrow(s: seq<int>, i: nat, j: nat)
    requires i <= j <= |s| && forall k :: 0 <= k < |s| ==> s[k] >= 0
    ensures SumTo(s, i) <= SumTo(s, j)
    decreases j
  {
    if i < j {
      PrefixSumsGrow(s, i, j - 1);
    }
  }

  lemma IdealFacts(labels: seq<Judgement>)
    ensures Descending(Ideal(labels))
    ensures multiset(Ideal(labels)) == multiset(Relevant(Relevances(labels)))
    ensures forall k :: 0 <= k < |Ideal(labels)| ==> Ideal(labels)[k] >= 1
    ensures |Ideal(labels)| == |Relevant(Relevances(labels))|
  {
    var rels := Relevant(Relevances(labels));
    SortedDownSorts(rels);
    RelevantAll(Relevances(labels));
    forall k | 0 <= k < |Ideal(labels)|
      ensures Ideal(labels)[k] >= 1
    {
      assert Ideal(labels)[k] in multiset(Ideal(labels));
      assert Ideal(labels)[k] in rels;
    }
    assert |multiset(Ideal(labels))| == |multiset(rels)|;
  }

  /** After any `i` positions, a duplicate-free ranking has gathered no more than the ideal one. */
  lemma PrefixDominated(ranked: seq<string>, labels: seq<Judgement>, i: nat)
    requires i <= |ranked| && NoDup(ranked[..i])
    ensures SumTo(Gains(ranked, labels), i) <= SumTo(Ideal(labels), Top(i, |Ideal(labels)|))
  {
    var s, g := Ideal(labels), Gains(ranked, labels)[..i];
    IdealFacts(labels);
    SumToIsSum(Gains(ranked, labels), i);
    assert g == Gains(ranked[..i], labels);
    GainsFromDistinctLabels(ranked[..i], labels);
    RelevantAll(g);
    TopSum(Relevant(g), s);
    PrefixSumsGrow(s, |Relevant(g)|, Top(i, |s|));
  }

  // ---- summation by parts ----

  /** `s` cut or filled up with zeros to length `n`. */
  function Padded(s: seq<int>, n: nat): seq<int> {
    seq(n, i requires 0 <= i < n => if i < |s| then s[i] else 0)
  }

  function Minus(a: seq<int>, b: seq<int>): seq<int>
    requires |a| == |b|
  {
    seq(|a|, i requires 0 <= i < |a| => a[i] - b[i])
  }

  lemma {:induction false} DcgOfMinus(a: seq<int>, b: seq<int>, disc: nat -> real, n: nat)
    requires |a| == |b| && n <= |a|
    ensures Dcg(Minus(a, b), disc, n) == Dcg(a, disc, n) - Dcg(b, disc, n)
    ensures SumTo(Minus(a, b), n) == SumTo(a, n) - SumTo(b, n)
  {
    if n > 0 {
      DcgOfMinus(a, b, disc, n - 1);
      SplitWeight(a[n - 1] as real, b[n - 1] as real, disc(n - 1));
    }
  }

  lemma SplitWeight(a: real, b: real, d: real)
    ensures (a - b) * d == a * d - b * d
  {
  }

  lemma {:induction false} DcgOfPadded(s: seq<int>, disc: nat -> real, m: nat, n: nat)
    requires n <= m
    ensures Dcg(Padded(s, m), disc, n) == Dcg(s, disc, Top(n, |s|))
    ensures SumTo(Padded(s, m), n) == SumTo(s, Top(n, |s|))
  {
    if n > 0 {
      DcgOfPadded(s, disc, m, n - 1);
    }
  }

  ghost predicate PrefixesNonNegative(x: seq<int>, n: nat)
    requires n <= |x|
  {
    forall i :: 0 <= i <= n ==> SumTo(x, i) >= 0
  }

  /** Weighting by a non-increasing discount keeps a sum with non-negative prefixes above its last weighted prefix. */
  lemma {:induction false} AbelPrefix(x: seq<int>, disc: nat -> real, n: nat)
    requires Discount(disc) && n < |x| && PrefixesNonNegative(x, n + 1)
    ensures Dcg(x, disc, n + 1) >= disc(n) * SumTo(x, n + 1) as real >= 0.0
  {
    var p := SumTo(x, n);
    assert p >= 0 && SumTo(x, n + 1) == p + x[n] && SumTo(x, n + 1) >= 0;
    if n == 0 {
      AbelStep(0.0, disc(0), disc(0), 0.0, x[0] as real);
    } else {
      AbelPrefix(x, disc, n - 1);
      AbelStep(Dcg(x, disc, n), disc(n - 1), disc(n), p as real, x[n] as real);
    }
  }

  lemma Abel(x: seq<int>, disc: nat -> real, n: nat)
    requires Discount(disc) && n <= |x| && PrefixesNonNegative(x, n)
    ensures n > 0 ==> Dcg(x, disc, n) >= disc(n - 1) * SumTo(x, n) as real
    ensures Dcg(x, disc, n) >= 0.0
  {
    if n > 0 {
      AbelPrefix(x, disc, n - 1);
    }
  }

  lemma AbelStep(w: real, d: real, d': real, p: real, x: real)
    requires w >= d * p && 0.0 < d' <= d && p >= 0.0 && p + x >= 0.0
    ensures w + x * d' >= d' * (p + x) >= 0.0
  {
    WeightFalls(d, d', p);
    AddWeighted(d', p, x);
    WeightFalls(d', 0.0, p + x);
  }

  lemma WeightFalls(d: real, d': real, p: real)
    requires d' <= d && p >= 0.0
    ensures d * p >= d' * p
  {
  }

  lemma AddWeighted(d: real, p: real, x: real)
    ensures d * p + x * d == d * (p + x)
  {
  }

  /** With a strictly falling discount the weighted sum is zero only when every term is. */
  lemma {:induction false} AbelStrict(x: seq<int>, disc: nat -> real, n: nat)
    requires StrictDiscount(disc) && n <= |x| && PrefixesNonNegative(x, n)
    requires Dcg(x, disc, n) == 0.0
    ensures forall i :: 0 <= i < n ==> x[i] == 0
  {
    if n == 0 {
    } else {
      LastTermIsZero(x, disc, n - 1);
      AbelStrict(x, disc, n - 1);
    }
  }

  lemma LastTermIsZero(x: seq<int>, disc: nat -> real, n: nat)
    requires StrictDiscount(disc) && n < |x| && PrefixesNonNegative(x, n + 1)
    requires Dcg(x, disc, n + 1) == 0.0
    ensures Dcg(x, disc, n) == 0.0 && x[n] == 0
  {
    var w, y, d := Dcg(x, disc, n), x[n] as real, disc(n);
    assert w + y * d == 0.0;
    if n == 0 {
      ZeroFactor(y, d);
    } else {
      Abel(x, disc, n);
      var p := SumTo(x, n);
      assert p >= 0 && SumTo(x, n + 1) == p + x[n] && SumTo(x, n + 1) >= 0;
      StrictStep(w, disc(n - 1), d, p as real, y);
    }
  }

  lemma ZeroFactor(y: real, d: real)
    requires d > 0.0 && y * d == 0.0
    ensures y == 0.0
  {
  }

  lemma StrictStep(w: real, d: real, d': real, p: real, x: real)
    requires w >= d * p && 0.0 < d' < d && p >= 0.0 && p + x >= 0.0 && w + x * d' == 0.0
    ensures w == 0.0 && x == 0.0
  {
    AddWeighted(d', p, x);
    assert d * p == (d - d') * p + d' * p;
    WeightFalls(d', 0.0, p + x);
    PositiveWeight(d - d', p);
    PositiveWeight(d', p + x);
  }

  lemma PositiveWeight(d: real, q: real)
    requires d > 0.0 && q >= 0.0 && d * q <= 0.0
    ensures q == 0.0
  {
  }

  lemma {:induction false} DcgGrows(s: seq<int>, disc: nat -> real, m: nat, n: nat)
    requires Discount(disc) && m <= n <= |s| && forall i :: 0 <= i < |s| ==> s[i] >= 1
    ensures Dcg(s, disc, m) <= Dcg(s, disc, n)
    ensures m < n ==> Dcg(s, disc, m) < Dcg(s, disc, n)
    decreases n
  {
    if m < n {
      DcgGrows(s, disc, m, n - 1);
      WeightFalls(s[n - 1] as real, 1.0, disc(n - 1));
    }
  }

  // ---- the normalisation theorems ----

  /** The shortfall of a ranking against the ideal one, position by position. */
  ghost function Shortfall(ranked: seq<string>, labels: seq<Judgement>, n: nat): seq<int>
    requires n <= |ranked|
  {
    Minus(Padded(Ideal(labels), n), Gains(ranked, labels)[..n])
  }

  lemma {:induction false} DcgOfPrefix(g: seq<int>, disc: nat -> real, m: nat, n: nat)
    requires n <= m <= |g|
    ensures Dcg(g[..m], disc, n) == Dcg(g, disc, n)
  {
    if n > 0 {
      DcgOfPrefix(g, disc, m, n - 1);
    }
  }

  lemma {:induction false} SumToPrefix(g: seq<int>, m: nat, n: nat)
    requires n <= m <= |g|
    ensures SumTo(g[..m], n) == SumTo(g, n)
  {
    if n > 0 {
      SumToPrefix(g, m, n - 1);
    }
  }

  lemma ShortfallFacts(ranked: seq<string>, labels: seq<Judgement>, disc: nat -> real, n: nat)
    requires n <= |ranked| && NoDup(ranked[..n])
    ensures PrefixesNonNegative(Shortfall(ranked, labels, n), n)
    ensures Dcg(Shortfall(ranked, labels, n), disc, n) ==
            Dcg(Ideal(labels), disc, Top(n, |Ideal(labels)|)) - Dcg(Gains(ranked, labels), disc, n)
  {
    var s, g := Ideal(labels), Gains(ranked, labels);
    var x := Shortfall(ranked, labels, n);
    forall i | 0 <= i <= n
      ensures SumTo(x, i) >= 0
    {
      DcgOfMinus(Padded(s, n), g[..n], disc, i);
      DcgOfPadded(s, disc, n, i);
      SumToPrefix(g, n, i);
      assert NoDup(ranked[..i]);
      PrefixDominated(ranked, labels, i);
    }
    DcgOfMinus(Padded(s, n), g[..n], disc, n);
    DcgOfPadded(s, disc, n, n);
    DcgOfPrefix(g, disc, n, n);
  }

  /** There is something to gain within the cutoff exactly when some label is relevant and the cutoff admits one. */
  lemma IdealIsPositiveIff(labels: seq<Judgement>, k: int, disc: nat -> real)
    requires Discount(disc)
    ensures var ideal := Dcg(Ideal(labels), disc, Top(k, |Ideal(labels)|));
            && ideal >= 0.0
            && (ideal > 0.0 <==> k > 0 && exists i :: 0 <= i < |labels| && labels[i].relevance >= 1)
  {
    var rels, s := Relevances(labels), Ideal(labels);
    IdealFacts(labels);
    DcgGrows(s, disc, 0, Top(k, |s|));
    if i :| 0 <= i < |labels| && labels[i].relevance >= 1 {
      RelevantCounts(rels, rels[i]);
      assert rels[i] in multiset(Relevant(rels));
    }
    if s != [] {
      RelevantCounts(rels, s[0]);
      assert s[0] in multiset(s) && s[0] in multiset(rels);
      var i :| 0 <= i < |rels| && rels[i] == s[0];
      assert labels[i].relevance >= 1;
    }
  }

  /** For a ranking without repeats in its top `k`, DCG is at most the ideal. */
  lemma DcgAtMostIdeal(ranked: seq<string>, labels: seq<Judgement>, k: int, disc: nat -> real)
    requires Discount(disc) && NoDup(ranked[..Top(k, |ranked|)])
    ensures Dcg(Gains(ranked, labels), disc, Top(k, |ranked|)) <= Dcg(Ideal(labels), disc, Top(k, |Ideal(labels)|))
  {
    var n, s := Top(k, |ranked|), Ideal(labels);
    ShortfallFacts(ranked, labels, disc, n);
    Abel(Shortfall(ranked, labels, n), disc, n);
    IdealFacts(labels);
    DcgGrows(s, disc, Top(n, |s|), Top(k, |s|));
  }

  /** For a ranking without repeats in its top `k`, nDCG is at most 1. */
  lemma NdcgAtMostOne(ranked: seq<string>, labels: seq<Judgement>, k: int, disc: nat -> real, score: real)
    requires Discount(disc) && NoDup(ranked[..Top(k, |ranked|)]) && IsNdcg(score, ranked, labels, k, disc)
    ensures Dcg(Gains(ranked, labels), disc, Top(k, |ranked|)) <= Dcg(Ideal(labels), disc, Top(k, |Ideal(labels)|))
    ensures score <= 1.0
  {
    DcgAtMostIdeal(ranked, labels, k, disc);
    IdealIsPositiveIff(labels, k, disc);
    Quotient(score, Dcg(Gains(ranked, labels), disc, Top(k, |ranked|)),
             Dcg(Ideal(labels), disc, Top(k, |Ideal(labels)|)));
  }

  /** A quotient over a positive whole, compared with 1 and with 0. */
  lemma Quotient(q: real, part: real, whole: real)
    requires whole >= 0.0 && IsShare(q, part, whole)
    ensures part <= whole ==> q <= 1.0
    ensures part >= 0.0 ==> q >= 0.0
    ensures whole > 0.0 ==> (q == 1.0 <==> part == whole) && (q > 1.0 <==> part > whole) && (q > 0.0 <==> part > 0.0)
  {
    if whole > 0.0 {
      WeightFalls(whole, 0.0, if q < 0.0 then -q else q);
      assert (q - 1.0) * whole == part - whole;
      Sign(q - 1.0, whole);
      Sign(q, whole);
    }
  }

  lemma Sign(x: real, d: real)
    requires d > 0.0
    ensures x * d > 0.0 <==> x > 0.0
    ensures x * d == 0.0 <==> x == 0.0
  {
  }

  /** With labels none of which is negative, nDCG is at least 0. */
  lemma NdcgAtLeastZero(ranked: seq<string>, labels: seq<Judgement>, k: int, disc: nat -> real, score: real)
    requires Discount(disc) && IsNdcg(score, ranked, labels, k, disc)
    requires forall i :: 0 <= i < |labels| ==> labels[i].relevance >= 0
    ensures score >= 0.0
  {
    var g, s := Gains(ranked, labels), Ideal(labels);
    forall i | 0 <= i < |g|
      ensures g[i] >= 0
    {
      RelevanceAtLeast(ranked[i], labels, 0);
    }
    DcgNonNegative(g, disc, Top(k, |ranked|));
    IdealFacts(labels);
    DcgNonNegative(s, disc, Top(k, |s|));
    Quotient(score, Dcg(g, disc, Top(k, |ranked|)), Dcg(s, disc, Top(k, |s|)));
  }

  lemma {:induction false} RelevanceAtLeast(id: string, labels: seq<Judgement>, bound: int)
    requires bound <= 0 && forall i :: 0 <= i < |labels| ==> labels[i].relevance >= bound
    ensures RelevanceOf(id, labels) >= bound
  {
    if labels != [] && labels[0].toolId != id {
      RelevanceAtLeast(id, labels[1..], bound);
    }
  }

  lemma {:induction false} DcgNonNegative(g: seq<int>, disc: nat -> real, n: nat)
    requires Discount(disc) && n <= |g| && forall i :: 0 <= i < |g| ==> g[i] >= 0
    ensures Dcg(g, disc, n) >= 0.0
  {
    if n > 0 {
      DcgNonNegative(g, disc, n - 1);
      WeightFalls(g[n - 1] as real, 0.0, disc(n - 1));
    }
  }

  /** The top `k` lists the ideal relevances in order, and nothing of relevance after them. */
  ghost predicate InIdealOrder(ranked: seq<string>, labels: seq<Judgement>, k: int) {
    var g, s, n := Gains(ranked, labels), Ideal(labels), Top(k, |ranked|);
    Top(k, |s|) <= n && forall i :: 0 <= i < n ==> g[i] == if i < |s| then s[i] else 0
  }

  /** Under a strictly falling discount, the ideal is reached exactly by the ideal order. */
  lemma IdealReachedIff(ranked: seq<string>, labels: seq<Judgement>, k: int, disc: nat -> real)
    requires StrictDiscount(disc) && NoDup(ranked[..Top(k, |ranked|)])
    ensures Dcg(Gains(ranked, labels), disc, Top(k, |ranked|)) == Dcg(Ideal(labels), disc, Top(k, |Ideal(labels)|))
            <==> InIdealOrder(ranked, labels, k)
  {
    var g, s, n := Gains(ranked, labels), Ideal(labels), Top(k, |ranked|);
    var x := Shortfall(ranked, labels, n);
    ShortfallFacts(ranked, labels, disc, n);
    IdealFacts(labels);
    DcgGrows(s, disc, Top(n, |s|), Top(k, |s|));
    Abel(x, disc, n);
    if Dcg(g, disc, n) == Dcg(s, disc, Top(k, |s|)) {
      AbelStrict(x, disc, n);
      NoShortfall(ranked, labels, n);
    }
    if InIdealOrder(ranked, labels, k) {
      NoShortfall(ranked, labels, n);
      ZeroTerms(x, disc, n);
    }
  }

  /** Under a strictly falling discount, with something to gain, the score is 1 exactly for the ideal order. */
  lemma FullScoreIffIdealOrder(ranked: seq<string>, labels: seq<Judgement>, k: int, disc: nat -> real, score: real)
    requires StrictDiscount(disc) && NoDup(ranked[..Top(k, |ranked|)]) && IsNdcg(score, ranked, labels, k, disc)
    requires k > 0 && exists i :: 0 <= i < |labels| && labels[i].relevance >= 1
    ensures score == 1.0 <==> InIdealOrder(ranked, labels, k)
  {
    IdealReachedIff(ranked, labels, k, disc);
    IdealIsPositiveIff(labels, k, disc);
    Quotient(score, Dcg(Gains(ranked, labels), disc, Top(k, |ranked|)),
             Dcg(Ideal(labels), disc, Top(k, |Ideal(labels)|)));
  }

  /** The shortfall is zero exactly where the gain is the padded ideal relevance. */
  lemma NoShortfall(ranked: seq<string>, labels: seq<Judgement>, n: nat)
    requires n <= |ranked|
    ensures |Shortfall(ranked, labels, n)| == n
    ensures var (g, s) := (Gains(ranked, labels), Ideal(labels));
            forall i :: 0 <= i < n ==>
              (Shortfall(ranked, labels, n)[i] == 0 <==> g[i] == if i < |s| then s[i] else 0)
  {
    var x, s, g := Shortfall(ranked, labels, n), Ideal(labels), Gains(ranked, labels);
    forall i | 0 <= i < n
      ensures x[i] == (if i < |s| then s[i] else 0) - g[i]
    {
      assert x[i] == Padded(s, n)[i] - g[..n][i];
    }
  }

  lemma {:induction false} ZeroTerms(x: seq<int>, disc: nat -> real, n: nat)
    requires n <= |x| && forall i :: 0 <= i < n ==> x[i] == 0
    ensures Dcg(x, disc, n) == 0.0
  {
    if n > 0 {
      ZeroTerms(x, disc, n - 1);
    }
  }

  // ---- exactly when the score is bounded for every labelling ----

  /** Every listed tool labelled with relevance 1. */
  function AllRelevant(ids: seq<string>): seq<Judgement> {
    Map(ids, (id: string) => Judgement(id, 1))
  }

  lemma {:induction false} AllRelevantGain(ids: seq<string>, id: string)
    requires id in ids
    ensures RelevanceOf(id, AllRelevant(ids)) == 1
  {
    var labels := AllRelevant(ids);
    if ids[0] != id {
      assert labels[1..] == AllRelevant(ids[1..]);
      AllRelevantGain(ids[1..], id);
    }
  }

  ghost predicate Ones(s: seq<int>) {
    forall i :: 0 <= i < |s| ==> s[i] == 1
  }

  lemma {:induction false} OnesFacts(s: seq<int>)
    requires Ones(s)
    ensures Relevant(s) == s && SortedDown(s) == s
  {
    if s != [] {
      OnesFacts(s[1..]);
      assert SortedDown(s) == Insert(s[0], s[1..]);
      InsertOne(s[1..]);
    }
  }

  lemma {:induction false} InsertOne(s: seq<int>)
    requires Ones(s)
    ensures Insert(1, s) == [1] + s
  {
    if s != [] {
      InsertOne(s[1..]);
      assert s == [1] + s[1..];
    }
  }

  lemma {:induction false} OnesDcg(a: seq<int>, b: seq<int>, disc: nat -> real, n: nat)
    requires n <= |a| && n <= |b| && (forall i :: 0 <= i < n ==> a[i] == 1 && b[i] == 1)
    ensures Dcg(a, disc, n) == Dcg(b, disc, n)
  {
    if n > 0 {
      OnesDcg(a, b, disc, n - 1);
    }
  }

  /** A repeat in the top `k` is over-rewarded by the labelling that marks exactly the listed tools relevant. */
  lemma RepeatExceedsIdeal(ranked: seq<string>, k: int, disc: nat -> real)
    requires Discount(disc) && !NoDup(ranked[..Top(k, |ranked|)])
    ensures var labels := AllRelevant(Distinct(ranked[..Top(k, |ranked|)]));
            Dcg(Gains(ranked, labels), disc, Top(k, |ranked|)) > Dcg(Ideal(labels), disc, Top(k, |Ideal(labels)|))
  {
    var n := Top(k, |ranked|);
    var ids := Distinct(ranked[..n]);
    var labels := AllRelevant(ids);
    DistinctFacts(ranked[..n]);
    var g := Gains(ranked, labels)[..n];
    forall i | 0 <= i < n
      ensures g[i] == 1
    {
      assert ranked[i] in ranked[..n];
      AllRelevantGain(ids, ranked[i]);
    }
    assert Ones(Relevances(labels));
    OnesFacts(Relevances(labels));
    var m := |ids|;
    assert Top(k, m) == m;
    OnesDcg(g, Ideal(labels), disc, m);
    DcgGrows(g, disc, m, n);
    DcgOfPrefix(Gains(ranked, labels), disc, n, n);
  }

  /** A ranking scores at most 1 under every labelling exactly when its top `k` repeats nothing. */
  lemma BoundedIffNoRepeats(ranked: seq<string>, k: int, disc: nat -> real)
    requires Discount(disc)
    ensures NoDup(ranked[..Top(k, |ranked|)]) <==>
            forall labels, score :: IsNdcg(score, ranked, labels, k, disc) ==> score <= 1.0
  {
    if NoDup(ranked[..Top(k, |ranked|)]) {
      forall labels, score | IsNdcg(score, ranked, labels, k, disc)
        ensures score <= 1.0
      {
        NdcgAtMostOne(ranked, labels, k, disc, score);
      }
    } else {
      var labels := AllRelevant(Distinct(ranked[..Top(k, |ranked|)]));
      RepeatExceedsIdeal(ranked, k, disc);
      IdealIsPositiveIff(labels, k, disc);
      var dcg := Dcg(Gains(ranked, labels), disc, Top(k, |ranked|));
      var ideal := Dcg(Ideal(labels), disc, Top(k, |Ideal(labels)|));
      SomethingIdeal(ranked, k, disc);
      Cancels(dcg, ideal);
      Quotient(dcg / ideal, dcg, ideal);
      assert IsNdcg(dcg / ideal, ranked, labels, k, disc);
    }
  }

  lemma SomethingIdeal(ranked: seq<string>, k: int, disc: nat -> real)
    requires Discount(disc) && !NoDup(ranked[..Top(k, |ranked|)])
    ensures var labels := AllRelevant(Distinct(ranked[..Top(k, |ranked|)]));
            Dcg(Ideal(labels), disc, Top(k, |Ideal(labels)|)) > 0.0
  {
    var top := ranked[..Top(k, |ranked|)];
    var labels := AllRelevant(Distinct(top));
    DistinctFacts(top);
    assert top[0] in Distinct(top);
    assert labels[0].relevance >= 1;
    IdealIsPositiveIff(labels, k, disc);
  }

  // ---- recall, reciprocal rank, average precision ----

  /** Relevant entries among the first `n`. */
  function Hits(gains: seq<int>, n: nat): nat
    requires n <= |gains|
  {
    if n == 0 then 0 else Hits(gains, n - 1) + (if gains[n - 1] >= 1 then 1 else 0)
  }

  lemma {:induction false} HitsCountRelevant(gains: seq<int>, n: nat)
    requires n <= |gains|
    ensures Hits(gains, n) == |Relevant(gains[..n])| && Hits(gains, n) <= n
  {
    if n > 0 {
      HitsCountRelevant(gains, n - 1);
      assert gains[..n] == gains[..n - 1] + [gains[n - 1]];
      RelevantConcat(gains[..n - 1], [gains[n - 1]]);
    }
  }

  /** The positions among the first `n` at which something relevant stands. */
  ghost function HitSet(gains: seq<int>, n: nat): set<nat>
    requires n <= |gains|
  {
    set i: nat | i < n && gains[i] >= 1
  }

  lemma {:induction false} HitsAreCounted(gains: seq<int>, n: nat)
    requires n <= |gains|
    ensures |HitSet(gains, n)| == Hits(gains, n)
  {
    if n > 0 {
      HitsAreCounted(gains, n - 1);
      assert HitSet(gains, n) == HitSet(gains, n - 1) + if gains[n - 1] >= 1 then {n - 1} else {};
    }
  }

  lemma {:induction false} HitsGrow(gains: seq<int>, m: nat, n: nat)
    requires m <= n <= |gains|
    ensures Hits(gains, m) <= Hits(gains, n)
    decreases n
  {
    if m < n {
      HitsGrow(gains, m, n - 1);
    }
  }

  ghost function RelevantTotal(labels: seq<Judgement>): nat {
    |set i: nat | i < |labels| && labels[i].relevance >= 1|
  }

  lemma TotalIsRelevant(labels: seq<Judgement>)
    ensures RelevantTotal(labels) == |Relevant(Relevances(labels))| == Hits(Relevances(labels), |labels|)
  {
    var rels := Relevances(labels);
    HitsAreCounted(rels, |labels|);
    HitsCountRelevant(rels, |labels|);
    assert rels[..|labels|] == rels;
    assert HitSet(rels, |labels|) == set i: nat | i < |labels| && labels[i].relevance >= 1;
  }

  method RelevantCount(labels: seq<Judgement>) returns (n: nat)
    ensures n == RelevantTotal(labels)
  {
    n := 0;
    for i := 0 to |labels|
      invariant n == Hits(Relevances(labels), i)
    {
      if labels[i].relevance >= 1 {
        n := n + 1;
      }
    }
    TotalIsRelevant(labels);
  }

  /** The positions within the cutoff at which something relevant stands. */
  ghost function HitsWithin(ranked: seq<string>, labels: seq<Judgement>, k: int): set<nat> {
    set i: nat | i < |ranked| && i < k && RelevanceOf(ranked[i], labels) >= 1
  }

  /** Recall is the share of the relevant labels that the first `k` positions hit, and zero when there are none. */
  ghost predicate IsRecall(recall: real, ranked: seq<string>, labels: seq<Judgement>, k: int) {
    IsShare(recall, |HitsWithin(ranked, labels, k)| as real, RelevantTotal(labels) as real)
  }

  lemma HitsWithinCutoff(ranked: seq<string>, labels: seq<Judgement>, k: int)
    ensures |HitsWithin(ranked, labels, k)| == Hits(Gains(ranked, labels), Top(k, |ranked|))
  {
    var g, n := Gains(ranked, labels), Top(k, |ranked|);
    HitsAreCounted(g, n);
    assert HitSet(g, n) == HitsWithin(ranked, labels, k);
  }

  method RecallAtK(ranked: seq<string>, labels: seq<Judgement>, k: int) returns (recall: real)
    ensures IsRecall(recall, ranked, labels, k)
  {
    var total := RelevantCount(labels);
    if total == 0 {
      return 0.0;
    }
    var hits: nat := 0;
    for i := 0 to Top(k, |ranked|)
      invariant hits == Hits(Gains(ranked, labels), i)
    {
      if RelevanceOf(ranked[i], labels) >= 1 {
        hits := hits + 1;
      }
    }
    HitsWithinCutoff(ranked, labels, k);
    Cancels(hits as real, total as real);
    return hits as real / total as real;
  }

  /** Recall never falls as the cutoff grows. */
  lemma RecallGrows(ranked: seq<string>, labels: seq<Judgement>, k: int, k': int, recall: real, recall': real)
    requires k <= k' && IsRecall(recall, ranked, labels, k) && IsRecall(recall', ranked, labels, k')
    ensures recall <= recall'
  {
    HitsWithinCutoff(ranked, labels, k);
    HitsWithinCutoff(ranked, labels, k');
    HitsGrow(Gains(ranked, labels), Top(k, |ranked|), Top(k', |ranked|));
    SharesOrdered(recall, recall', |HitsWithin(ranked, labels, k)| as real, |HitsWithin(ranked, labels, k')| as real,
                  RelevantTotal(labels) as real);
  }

  lemma SharesOrdered(x: real, y: real, a: real, b: real, whole: real)
    requires whole >= 0.0 && IsShare(x, a, whole) && IsShare(y, b, whole) && a <= b
    ensures x <= y
  {
    if whole > 0.0 {
      assert (x - y) * whole == a - b;
      Sign(x - y, whole);
    }
  }

  lemma HitsAtMostTotal(ranked: seq<string>, labels: seq<Judgement>, n: nat)
    requires n <= |ranked| && NoDup(ranked[..n])
    ensures Hits(Gains(ranked, labels), n) <= RelevantTotal(labels)
  {
    HitsCountRelevant(Gains(ranked, labels), n);
    TotalIsRelevant(labels);
    assert Gains(ranked, labels)[..n] == Gains(ranked[..n], labels);
    GainsFromDistinctLabels(ranked[..n], labels);
    var got, all := Relevant(Gains(ranked[..n], labels)), Relevant(Relevances(labels));
    SubMultisetSize(multiset(got), multiset(all));
    assert |multiset(got)| == |got| && |multiset(all)| == |all|;
  }

  /** Without repeats in the top `k`, recall is at most 1. */
  lemma RecallAtMostOne(ranked: seq<string>, labels: seq<Judgement>, k: int, recall: real)
    requires NoDup(ranked[..Top(k, |ranked|)]) && IsRecall(recall, ranked, labels, k)
    ensures 0.0 <= recall <= 1.0
  {
    HitsWithinCutoff(ranked, labels, k);
    HitsAtMostTotal(ranked, labels, Top(k, |ranked|));
    Quotient(recall, Hits(Gains(ranked, labels), Top(k, |ranked|)) as real, RelevantTotal(labels) as real);
  }

  /** With exactly the listed tools marked relevant, every position is a hit, and repeats make the hits too many. */
  lemma RepeatsOverHit(ranked: seq<string>, n: nat)
    requires n <= |ranked| && !NoDup(ranked[..n])
    ensures var labels := AllRelevant(Distinct(ranked[..n]));
            && (forall i :: 0 <= i < n ==> Gains(ranked, labels)[i] == 1)
            && 0 < RelevantTotal(labels) < n
  {
    var ids := Distinct(ranked[..n]);
    DistinctFacts(ranked[..n]);
    TotalIsRelevant(AllRelevant(ids));
    forall i | 0 <= i < n
      ensures Gains(ranked, AllRelevant(ids))[i] == 1
    {
      assert ranked[i] in ranked[..n];
      AllRelevantGain(ids, ranked[i]);
    }
    assert Ones(Relevances(AllRelevant(ids)));
    OnesFacts(Relevances(AllRelevant(ids)));
    assert ranked[0] in ranked[..n];
  }

  lemma {:induction false} AllHits(gains: seq<int>, n: nat)
    requires n <= |gains| && forall i :: 0 <= i < n ==> gains[i] == 1
    ensures Hits(gains, n) == n && PrecisionSum(gains, n) == n as real
  {
    if n == 0 {
    } else {
      AllHits(gains, n - 1);
      assert n as real / n as real == 1.0;
    }
  }

  /** A share of more than the whole. */
  lemma MoreThanWhole(part: nat, whole: nat) returns (share: real)
    requires 0 < whole < part
    ensures IsShare(share, part as real, whole as real) && share > 1.0
  {
    share := part as real / whole as real;
    Cancels(part as real, whole as real);
    Quotient(share, part as real, whole as real);
  }

  /** Recall is at most 1 under every labelling exactly when the top `k` repeats nothing. */
  lemma RecallBoundedIffNoRepeats(ranked: seq<string>, k: int)
    ensures NoDup(ranked[..Top(k, |ranked|)]) <==>
            forall labels, recall :: IsRecall(recall, ranked, labels, k) ==> recall <= 1.0
  {
    var n := Top(k, |ranked|);
    if NoDup(ranked[..n]) {
      forall labels, recall | IsRecall(recall, ranked, labels, k)
        ensures recall <= 1.0
      {
        RecallAtMostOne(ranked, labels, k, recall);
      }
    } else {
      var labels := AllRelevant(Distinct(ranked[..n]));
      RepeatsOverHit(ranked, n);
      AllHits(Gains(ranked, labels), n);
      HitsWithinCutoff(ranked, labels, k);
      var recall := MoreThanWhole(n, RelevantTotal(labels));
      assert IsRecall(recall, ranked, labels, k);
    }
  }

  /** Average precision is at most 1 under every labelling exactly when the ranking repeats nothing. */
  lemma PrecisionBoundedIffNoRepeats(ranked: seq<string>)
    ensures NoDup(ranked) <==>
            forall labels, ap :: IsAveragePrecision(ap, ranked, labels) ==> ap <= 1.0
  {
    var n := |ranked|;
    assert ranked[..n] == ranked;
    if NoDup(ranked) {
      forall labels, ap | IsAveragePrecision(ap, ranked, labels)
        ensures ap <= 1.0
      {
        AveragePrecisionAtMostOne(ranked, labels, ap);
      }
    } else {
      var labels := AllRelevant(Distinct(ranked));
      RepeatsOverHit(ranked, n);
      AllHits(Gains(ranked, labels), n);
      var ap := MoreThanWhole(n, RelevantTotal(labels));
      assert IsAveragePrecision(ap, ranked, labels);
    }
  }

  /** The first relevant position in a ranking. */
  ghost predicate FirstRelevant(ranked: seq<string>, labels: seq<Judgement>, i: int) {
    && 0 <= i < |ranked| && RelevanceOf(ranked[i], labels) >= 1
    && forall j :: 0 <= j < i ==> RelevanceOf(ranked[j], labels) < 1
  }

  /** One over the rank of the first relevant position, or zero when there is none. */
  ghost predicate IsReciprocalRank(rr: real, ranked: seq<string>, labels: seq<Judgement>) {
    && ((forall i :: 0 <= i < |ranked| ==> RelevanceOf(ranked[i], labels) < 1) ==> rr == 0.0)
    && (forall i :: FirstRelevant(ranked, labels, i) ==> rr * (i + 1) as real == 1.0)
  }

  method ReciprocalRank(ranked: seq<string>, labels: seq<Judgement>) returns (rr: real)
    ensures IsReciprocalRank(rr, ranked, labels)
  {
    for i := 0 to |ranked|
      invariant forall j :: 0 <= j < i ==> RelevanceOf(ranked[j], labels) < 1
    {
      if RelevanceOf(ranked[i], labels) >= 1 {
        Cancels(1.0, (i + 1) as real);
        return 1.0 / (i + 1) as real;
      }
    }
    return 0.0;
  }

  /** Precision summed over the relevant positions among the first `n`. */
  function PrecisionSum(gains: seq<int>, n: nat): real
    requires n <= |gains|
  {
    if n == 0 then 0.0
    else if gains[n - 1] >= 1 then PrecisionSum(gains, n - 1) + Hits(gains, n) as real / n as real
    else PrecisionSum(gains, n - 1)
  }

  /** A relevant position adds the share of relevant ones up to and including it; an irrelevant one adds nothing. */
  lemma PrecisionSteps(gains: seq<int>, n: nat)
    requires n < |gains|
    ensures PrecisionSum(gains, 0) == 0.0
    ensures (PrecisionSum(gains, n + 1) - PrecisionSum(gains, n)) * (n + 1) as real ==
            if gains[n] >= 1 then |set i: nat | i <= n && gains[i] >= 1| as real else 0.0
  {
    HitsAreCounted(gains, n + 1);
    assert HitSet(gains, n + 1) == set i: nat | i <= n && gains[i] >= 1;
    Cancels(Hits(gains, n + 1) as real, (n + 1) as real);
  }

  /** The precisions at the relevant positions, summed, over the number of relevant labels. */
  ghost predicate IsAveragePrecision(ap: real, ranked: seq<string>, labels: seq<Judgement>) {
    IsShare(ap, PrecisionSum(Gains(ranked, labels), |ranked|), RelevantTotal(labels) as real)
  }

  method AveragePrecision(ranked: seq<string>, labels: seq<Judgement>) returns (ap: real)
    ensures IsAveragePrecision(ap, ranked, labels)
  {
    var total := RelevantCount(labels);
    if total == 0 {
      return 0.0;
    }
    var hits: nat, sumPrec := 0, 0.0;
    for i := 0 to |ranked|
      invariant hits == Hits(Gains(ranked, labels), i)
      invariant sumPrec == PrecisionSum(Gains(ranked, labels), i)
    {
      if RelevanceOf(ranked[i], labels) >= 1 {
        hits := hits + 1;
        sumPrec := sumPrec + hits as real / (i + 1) as real;
      }
    }
    Cancels(sumPrec, total as real);
    return sumPrec / total as real;
  }

  lemma {:induction false} PrecisionSumBounds(gains: seq<int>, n: nat)
    requires n <= |gains|
    ensures 0.0 <= PrecisionSum(gains, n) <= Hits(gains, n) as real
    ensures PrecisionSum(gains, n) > 0.0 <==> Hits(gains, n) > 0
  {
    if n > 0 {
      PrecisionSumBounds(gains, n - 1);
      if gains[n - 1] >= 1 {
        HitsCountRelevant(gains, n);
        PartOfWhole(Hits(gains, n), n);
      }
    }
  }

  lemma PartOfWhole(part: nat, whole: nat)
    requires 0 < part <= whole
    ensures 0.0 < part as real / whole as real <= 1.0
  {
    assert part as real / whole as real <= whole as real / whole as real;
  }

  /** Without repeats, average precision is at most 1. */
  lemma AveragePrecisionAtMostOne(ranked: seq<string>, labels: seq<Judgement>, ap: real)
    requires NoDup(ranked) && IsAveragePrecision(ap, ranked, labels)
    ensures 0.0 <= ap <= 1.0
  {
    assert ranked[..|ranked|] == ranked;
    HitsAtMostTotal(ranked, labels, |ranked|);
    PrecisionSumBounds(Gains(ranked, labels), |ranked|);
    Quotient(ap, PrecisionSum(Gains(ranked, labels), |ranked|), RelevantTotal(labels) as real);
  }

  /** Average precision and reciprocal rank agree on whether anything relevant was found at all. */
  lemma PrecisionAndRankAgree(ranked: seq<string>, labels: seq<Judgement>, ap: real, rr: real)
    requires IsAveragePrecision(ap, ranked, labels) && IsReciprocalRank(rr, ranked, labels)
    ensures ap > 0.0 <==> rr > 0.0
  {
    var gains, total := Gains(ranked, labels), RelevantTotal(labels);
    PrecisionSumBounds(gains, |ranked|);
    NoHitsIffNoneRelevant(gains, |gains|);
    Quotient(ap, PrecisionSum(gains, |ranked|), total as real);
    TotalIsRelevant(labels);
    if i :| 0 <= i < |ranked| && gains[i] >= 1 {
      var f := FindFirst(ranked, labels, i);
      RelevantIsLabelled(ranked[f], labels);
      Sign(rr, (f + 1) as real);
    }
  }

  lemma FindFirst(ranked: seq<string>, labels: seq<Judgement>, i: nat) returns (f: nat)
    requires i < |ranked| && RelevanceOf(ranked[i], labels) >= 1
    ensures FirstRelevant(ranked, labels, f)
  {
    f := 0;
    while RelevanceOf(ranked[f], labels) < 1
      invariant f <= i && forall j :: 0 <= j < f ==> RelevanceOf(ranked[j], labels) < 1
      decreases i - f
    {
      f := f + 1;
    }
  }

  lemma {:induction false} NoHitsIffNoneRelevant(gains: seq<int>, n: nat)
    requires n <= |gains|
    ensures Hits(gains, n) > 0 <==> exists i :: 0 <= i < n && gains[i] >= 1
  {
    if n > 0 {
      NoHitsIffNoneRelevant(gains, n - 1);
    }
  }

  lemma {:induction false} RelevantIsLabelled(id: string, labels: seq<Judgement>)
    requires RelevanceOf(id, labels) >= 1
    ensures |Relevant(Relevances(labels))| > 0
  {
    assert Relevances(labels)[1..] == Relevances(labels[1..]);
    if labels[0].toolId != id {
      RelevantIsLabelled(id, labels[1..]);
    }
  }
}
