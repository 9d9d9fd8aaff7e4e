/**
 * Labelled byte spans of a text, and the attribution of its tokens to them: one pass over both, each token charged
 * to the span holding its first byte.
 */
module Spans {
  import opened Wrappers
  import opened Seqs

  /** One labelled byte range `[start, end)`. */
  datatype Span = Span(tag: string, start: int, end: int)

  /** Sorted, non-empty, gap-free, covering exactly `[0, textLen)`. */
  ghost predicate IsPartition(spans: seq<Span>, textLen: int) {
    if spans == [] then textLen == 0
    else
      && spans[0].start == 0
      && (forall i :: 0 <= i < |spans| ==> spans[i].start < spans[i].end)
      && (forall i :: 0 < i < |spans| ==> spans[i].start == spans[i - 1].end)
      && Last(spans).end == textLen
  }

  method ValidateSpanPartition(spans: seq<Span>, textLen: int) returns (ok: bool)
    ensures ok == IsPartition(spans, textLen)
  {
    if |spans| == 0 {
      return textLen == 0;
    }
    if spans[0].start != 0 {
      return false;
    }
    for i := 0 to |spans|
      invariant forall j :: 0 <= j < i ==> spans[j].start < spans[j].end
      invariant forall j :: 0 < j < i ==> spans[j].start == spans[j - 1].end
    {
      if spans[i].start >= spans[i].end {
        return false;
      }
      if i > 0 && spans[i].start != spans[i - 1].end {
        return false;
      }
    }
    return Last(spans).end == textLen;
  }

  /** Byte `b` lies in span `i`. */
  predicate Holds(s: Span, b: int) {
    s.start <= b < s.end
  }

  lemma {:induction false} SpansAscend(spans: seq<Span>, textLen: int, i: nat, j: nat)
    requires IsPartition(spans, textLen) && i < j < |spans|
    ensures spans[i].end <= spans[j].start
    decreases j - i
  {
    if i + 1 < j {
      SpansAscend(spans, textLen, i, j - 1);
    }
  }

  /** In a partition every byte of the text has exactly one span. */
  lemma {:induction false} ByteHasOneSpan(spans: seq<Span>, textLen: int, b: int) returns (i: nat)
    requires IsPartition(spans, textLen) && 0 <= b < textLen
    ensures i < |spans| && Holds(spans[i], b)
    ensures forall j :: 0 <= j < |spans| && Holds(spans[j], b) ==> j == i
  {
    i := 0;
    while spans[i].end <= b
      invariant i < |spans| && spans[i].start <= b
      decreases |spans| - i
    {
      i := i + 1;
    }
    forall j | 0 <= j < |spans| && Holds(spans[j], b)
      ensures j == i
    {
      if j < i {
        SpansAscend(spans, textLen, j, i);
      } else if i < j {
        SpansAscend(spans, textLen, i, j);
      }
    }
  }

  /** From `mark` on, the spans are contiguous and non-empty, and reach `end`. */
  ghost predicate TilesFrom(spans: seq<Span>, mark: int, end: int) {
    if spans == [] then mark == end
    else spans[0].start == mark && spans[0].start < spans[0].end && TilesFrom(spans[1..], spans[0].end, end)
  }

  lemma {:induction false} TilesAscend(spans: seq<Span>, mark: int, end: int)
    requires TilesFrom(spans, mark, end) && spans != []
    ensures spans[0].start == mark && Last(spans).end == end
    ensures forall i :: 0 <= i < |spans| ==> spans[i].start < spans[i].end
    ensures forall i :: 0 < i < |spans| ==> spans[i].start == spans[i - 1].end
  {
    if |spans| > 1 {
      TilesAscend(spans[1..], spans[0].end, end);
      forall i | 0 <= i < |spans|
        ensures spans[i].start < spans[i].end
        ensures i > 0 ==> spans[i].start == spans[i - 1].end
      {
        if i > 0 {
          assert spans[i] == spans[1..][i - 1];
          if i > 1 {
            assert spans[i - 1] == spans[1..][i - 2];
          }
        }
      }
    }
  }

  lemma TilesArePartition(spans: seq<Span>, textLen: int)
    requires TilesFrom(spans, 0, textLen)
    ensures IsPartition(spans, textLen)
  {
    if spans != [] {
      TilesAscend(spans, 0, textLen);
    }
  }

  // ---- tokens ----

  /** The canonical components: present in every attribution, zero-valued when empty. */
  const INPUT_SCHEMAS := "input_schemas"
  const DESCRIPTIONS := "descriptions"
  const USAGE_INSTRUCTIONS := "usage_instructions"
  const METADATA := "metadata"
  const OTHER := "other"

  const RESPONSE_COMPONENTS: seq<string> :=
    [INPUT_SCHEMAS, DESCRIPTIONS, USAGE_INSTRUCTIONS, METADATA, OTHER]

  /** The first byte of token `k`, tokens given by their byte lengths. */
  function Offset(pieces: seq<nat>, k: nat): nat
    requires k <= |pieces|
  {
    if k == 0 then 0 else Offset(pieces, k - 1) + pieces[k - 1]
  }

  /** Token `k` starts inside a span of this tag. */
  ghost predicate StartsIn(pieces: seq<nat>, spans: seq<Span>, tag: string, k: nat)
    requires k < |pieces|
  {
    exists i :: 0 <= i < |spans| && spans[i].tag == tag && Holds(spans[i], Offset(pieces, k))
  }

  /** The naive count: look every one of the first `n` tokens up on its own. */
  ghost function TokensIn(pieces: seq<nat>, spans: seq<Span>, tag: string, n: nat): nat
    requires n <= |pieces|
  {
    if n == 0 then 0
    else TokensIn(pieces, spans, tag, n - 1) + (if StartsIn(pieces, spans, tag, n - 1) then 1 else 0)
  }

  /** A map read as Go reads it: zero for an absent key. */
  function Count(components: map<string, nat>, tag: string): nat {
    if tag in components then components[tag] else 0
  }

  ghost function Total(components: map<string, nat>): nat {
    SumOver(components, components.Keys)
  }

  ghost function SumOver(components: map<string, nat>, keys: set<string>): nat
    requires keys <= components.Keys
  {
    if keys == {} then 0
    else
      var k :| k in keys;
      components[k] + SumOver(components, keys - {k})
  }

  /** The sum does not depend on the order in which the keys are visited. */
  lemma {:induction false} SumOverPick(components: map<string, nat>, keys: set<string>, k: string)
    requires keys <= components.Keys && k in keys
    ensures SumOver(components, keys) == components[k] + SumOver(components, keys - {k})
    decreases keys
  {
    var p :| p in keys && SumOver(components, keys) == components[p] + SumOver(components, keys - {p});
    if p != k {
      SumOverPick(components, keys - {p}, k);
      SumOverPick(components, keys - {k}, p);
      assert keys - {p} - {k} == keys - {k} - {p};
    }
  }

  lemma {:induction false} SumOverSame(a: map<string, nat>, b: map<string, nat>, keys: set<string>)
    requires keys <= a.Keys && keys <= b.Keys && forall k :: k in keys ==> a[k] == b[k]
    ensures SumOver(a, keys) == SumOver(b, keys)
    decreases keys
  {
    if keys != {} {
      var k :| k in keys;
      SumOverPick(a, keys, k);
      SumOverPick(b, keys, k);
      SumOverSame(a, b, keys - {k});
    }
  }

  lemma TotalAfterIncrement(m: map<string, nat>, m': map<string, nat>, tag: string)
    requires m'.Keys == m.Keys + {tag}
    requires m'[tag] == Count(m, tag) + 1
    requires forall k :: k in m && k != tag ==> m'[k] == m[k]
    ensures Total(m') == Total(m) + 1
  {
    var others := m.Keys - {tag};
    assert m'.Keys - {tag} == others;
    SumOverPick(m', m'.Keys, tag);
    SumOverSame(m, m', others);
    if tag in m {
      SumOverPick(m, m.Keys, tag);
    } else {
      assert m.Keys == others;
    }
  }

  lemma {:induction false} AllZero(m: map<string, nat>, keys: set<string>)
    requires keys <= m.Keys && forall k :: k in keys ==> m[k] == 0
    ensures SumOver(m, keys) == 0
    decreases keys
  {
    if keys != {} {
      var k :| k in keys;
      SumOverPick(m, keys, k);
      AllZero(m, keys - {k});
    }
  }

  lemma {:induction false} OffsetsAscend(pieces: seq<nat>, j: nat, k: nat)
    requires j <= k <= |pieces|
    ensures Offset(pieces, j) <= Offset(pieces, k)
    ensures j < k && pieces[j] > 0 ==> Offset(pieces, j) < Offset(pieces, k)
    decreases k - j
  {
    if j < k {
      OffsetsAscend(pieces, j, k - 1);
    }
  }

  // ---- the two-pointer pass ----

  datatype Attribution = Attribution(total: nat, components: map<string, nat>)

  datatype AttributionError = BadPartition | EmptyPiece | OutsidePartition | RoundTripMismatch

  /** `components` holds the naive count of the first `n` tokens under every tag. */
  ghost predicate CountsSoFar(pieces: seq<nat>, spans: seq<Span>, components: map<string, nat>, n: nat)
    requires n <= |pieces|
  {
    && (forall c :: c in RESPONSE_COMPONENTS ==> c in components)
    && (forall tag :: Count(components, tag) == TokensIn(pieces, spans, tag, n))
    && Total(components) == n
  }

  /** Counting one more token, found in span `si`, keeps the counts naive. */
  lemma CountOneMore(pieces: seq<nat>, spans: seq<Span>, textLen: int, m: map<string, nat>, m': map<string, nat>,
                     n: nat, si: nat)
    requires IsPartition(spans, textLen) && n < |pieces| && si < |spans|
    requires Holds(spans[si], Offset(pieces, n))
    requires CountsSoFar(pieces, spans, m, n)
    requires m' == m[spans[si].tag := Count(m, spans[si].tag) + 1]
    ensures CountsSoFar(pieces, spans, m', n + 1)
  {
    var tag := spans[si].tag;
    assert m'.Keys == m.Keys + {tag};
    TotalAfterIncrement(m, m', tag);
    forall l
      ensures StartsIn(pieces, spans, l, n) <==> l == tag
    {
      if StartsIn(pieces, spans, l, n) {
        var i :| 0 <= i < |spans| && spans[i].tag == l && Holds(spans[i], Offset(pieces, n));
        if i < si {
          SpansAscend(spans, textLen, i, si);
        } else if si < i {
          SpansAscend(spans, textLen, si, i);
        }
      }
    }
    forall l
      ensures Count(m', l) == TokensIn(pieces, spans, l, n + 1)
    {
      assert Count(m, l) == TokensIn(pieces, spans, l, n);
    }
  }

  /**
   * `AttributeTokens`: tokens are given by the byte lengths of their decoded pieces. It succeeds exactly on a
   * partition whose text the non-empty pieces cover, and then each tag's count is the naive one.
   */
  method AttributeTokens(pieces: seq<nat>, textLen: nat, spans: seq<Span>)
    returns (r: Result<Attribution, AttributionError>)
    ensures r.Ok? <==>
            IsPartition(spans, textLen) && (forall k :: 0 <= k < |pieces| ==> pieces[k] > 0) &&
            Offset(pieces, |pieces|) == textLen
    ensures r == Err(BadPartition) <==> !IsPartition(spans, textLen)
    ensures r.Ok? ==> r.value.total == |pieces| && CountsSoFar(pieces, spans, r.value.components, |pieces|)
  {
    var valid := ValidateSpanPartition(spans, textLen);
    if !valid {
      return Err(BadPartition);
    }
    r := ChargeTokens(pieces, textLen, spans);
  }

  method ChargeTokens(pieces: seq<nat>, textLen: nat, spans: seq<Span>)
    returns (r: Result<Attribution, AttributionError>)
    requires IsPartition(spans, textLen)
    ensures r.Ok? <==> (forall k :: 0 <= k < |pieces| ==> pieces[k] > 0) && Offset(pieces, |pieces|) == textLen
    ensures r != Err(BadPartition)
    ensures r.Ok? ==> r.value.total == |pieces| && CountsSoFar(pieces, spans, r.value.components, |pieces|)
  {
    var components: map<string, nat> := map c | c in RESPONSE_COMPONENTS :: 0;
    NothingCounted(pieces, spans, components);
    var offset: nat, si: nat := 0, 0;
    for k := 0 to |pieces|
      invariant offset == Offset(pieces, k)
      invariant PassedSpans(spans, si, offset)
      invariant forall j :: 0 <= j < k ==> pieces[j] > 0
      invariant CountsSoFar(pieces, spans, components, k)
    {
      if pieces[k] == 0 {
        return Err(EmptyPiece);
      }
      si := AdvanceSpan(spans, textLen, si, offset);
      if si >= |spans| {
        OffsetsAscend(pieces, k, |pieces|);
        return Err(OutsidePartition);
      }
      components := Charge(pieces, spans, textLen, components, k, si);
      offset := offset + pieces[k];
    }
    if offset != textLen {
      return Err(RoundTripMismatch);
    }
    return Ok(Attribution(|pieces|, components));
  }

  /** `components[spans[si].Label]++` for token `k`. */
  method Charge(ghost pieces: seq<nat>, spans: seq<Span>, ghost textLen: int, components: map<string, nat>,
                ghost k: nat, si: nat) returns (components': map<string, nat>)
    requires IsPartition(spans, textLen) && k < |pieces| && si < |spans|
    requires Holds(spans[si], Offset(pieces, k))
    requires CountsSoFar(pieces, spans, components, k)
    ensures CountsSoFar(pieces, spans, components', k + 1)
  {
    var tag := spans[si].tag;
    components' := components[tag := Count(components, tag) + 1];
    CountOneMore(pieces, spans, textLen, components, components', k, si);
  }

  /** The span pointer never passes a span that ends after the current offset. */
  ghost predicate PassedSpans(spans: seq<Span>, si: nat, offset: nat) {
    si <= |spans| && (si > 0 ==> spans[si - 1].end <= offset)
  }

  /** Move the span pointer to the span holding `offset`, or past the end when the text is shorter. */
  method AdvanceSpan(spans: seq<Span>, textLen: nat, from: nat, offset: nat) returns (si: nat)
    requires IsPartition(spans, textLen) && PassedSpans(spans, from, offset)
    ensures PassedSpans(spans, si, offset)
    ensures si < |spans| ==> Holds(spans[si], offset)
    ensures si == |spans| ==> textLen <= offset
  {
    si := from;
    while si < |spans| && spans[si].end <= offset
      invariant PassedSpans(spans, si, offset)
    {
      si := si + 1;
    }
  }

  lemma NothingCounted(pieces: seq<nat>, spans: seq<Span>, components: map<string, nat>)
    requires components == map c | c in RESPONSE_COMPONENTS :: 0
    ensures CountsSoFar(pieces, spans, components, 0)
  {
    AllZero(components, components.Keys);
  }

  /** Each token starts where the ones before it end. */
  ghost predicate StartsAt(pieces: seq<nat>, starts: seq<nat>) {
    && |starts| == |pieces|
    && (starts != [] ==> starts[0] == 0)
    && forall k, m :: 0 <= k < |starts| && m == k + 1 && m < |starts| ==> starts[m] == starts[k] + pieces[k]
  }

  ghost predicate Under(spans: seq<Span>, tag: string, b: int) {
    exists s :: s in spans && s.tag == tag && s.start <= b < s.end
  }

  lemma StartsUnder(pieces: seq<nat>, spans: seq<Span>, tag: string, k: nat)
    requires k < |pieces|
    ensures StartsIn(pieces, spans, tag, k) <==> Under(spans, tag, Offset(pieces, k))
  {
    if i :| 0 <= i < |spans| && spans[i].tag == tag && Holds(spans[i], Offset(pieces, k)) {
      assert spans[i] in spans;
    }
  }

  /** The tokens whose first byte lies in a span of this tag. */
  ghost function TokensOf(starts: seq<nat>, spans: seq<Span>, tag: string, n: nat): set<nat>
    requires n <= |starts|
  {
    set k: nat | k < n && Under(spans, tag, starts[k])
  }

  lemma {:induction false} OffsetIsStart(pieces: seq<nat>, starts: seq<nat>, k: nat)
    requires StartsAt(pieces, starts) && k < |pieces|
    ensures Offset(pieces, k) == starts[k]
  {
    if k > 0 {
      OffsetIsStart(pieces, starts, k - 1);
    }
  }

  lemma TokensOfNext(starts: seq<nat>, spans: seq<Span>, tag: string, n: nat)
    requires n < |starts|
    ensures |TokensOf(starts, spans, tag, n + 1)| ==
            |TokensOf(starts, spans, tag, n)| + if Under(spans, tag, starts[n]) then 1 else 0
  {
    OneMoreNumber(TokensOf(starts, spans, tag, n), TokensOf(starts, spans, tag, n + 1), n,
                  Under(spans, tag, starts[n]));
  }

  lemma OneMoreNumber(before: set<nat>, after: set<nat>, n: nat, more: bool)
    requires n !in before && forall k: nat :: k in after <==> k in before || (k == n && more)
    ensures |after| == |before| + if more then 1 else 0
  {
    assert after == if more then before + {n} else before;
  }

  lemma {:induction false} TokensAreCounted(pieces: seq<nat>, spans: seq<Span>, starts: seq<nat>, tag: string, n: nat)
    requires StartsAt(pieces, starts) && n <= |pieces|
    ensures TokensIn(pieces, spans, tag, n) == |TokensOf(starts, spans, tag, n)|
  {
    if n > 0 {
      TokensAreCounted(pieces, spans, starts, tag, n - 1);
      OffsetIsStart(pieces, starts, n - 1);
      StartsUnder(pieces, spans, tag, n - 1);
      TokensOfNext(starts, spans, tag, n - 1);
    }
  }

  /** What an attribution counts under a tag: the tokens that start in one of its spans. */
  lemma CountsAreTokens(pieces: seq<nat>, spans: seq<Span>, components: map<string, nat>, starts: seq<nat>, tag: string)
    requires CountsSoFar(pieces, spans, components, |pieces|) && StartsAt(pieces, starts)
    ensures (if tag in components then components[tag] else 0) == |TokensOf(starts, spans, tag, |starts|)|
  {
    TokensAreCounted(pieces, spans, starts, tag, |pieces|);
    assert Count(components, tag) == TokensIn(pieces, spans, tag, |pieces|);
  }

  // ---- coarsening ----

  /** Rename one tag to another: the counts of the merged labels add up. */
  function Relabel(spans: seq<Span>, a: string, b: string): seq<Span> {
    Map(spans, (s: Span) => if s.tag == a then s.(tag := b) else s)
  }

  /** A token starts in the merged label exactly when it starts in one of the two, and never in both. */
  lemma MergedStart(pieces: seq<nat>, spans: seq<Span>, textLen: int, a: string, b: string, k: nat)
    requires IsPartition(spans, textLen) && a != b && k < |pieces|
    ensures StartsIn(pieces, Relabel(spans, a, b), b, k) <==>
            StartsIn(pieces, spans, a, k) || StartsIn(pieces, spans, b, k)
    ensures !(StartsIn(pieces, spans, a, k) && StartsIn(pieces, spans, b, k))
  {
    var merged, o := Relabel(spans, a, b), Offset(pieces, k);
    if StartsIn(pieces, merged, b, k) {
      var i :| 0 <= i < |merged| && merged[i].tag == b && Holds(merged[i], o);
      assert Holds(spans[i], o) && (spans[i].tag == a || spans[i].tag == b);
    }
    if StartsIn(pieces, spans, a, k) {
      var i :| 0 <= i < |spans| && spans[i].tag == a && Holds(spans[i], o);
      assert merged[i].tag == b && Holds(merged[i], o);
      if StartsIn(pieces, spans, b, k) {
        var j :| 0 <= j < |spans| && spans[j].tag == b && Holds(spans[j], o);
        OneHolder(spans, textLen, i, j, o);
      }
    } else if StartsIn(pieces, spans, b, k) {
      var j :| 0 <= j < |spans| && spans[j].tag == b && Holds(spans[j], o);
      assert merged[j].tag == b && Holds(merged[j], o);
    }
  }

  lemma {:induction false} MergingLabelsAddsCounts(pieces: seq<nat>, spans: seq<Span>, textLen: int,
                                                   a: string, b: string, n: nat)
    requires IsPartition(spans, textLen) && a != b && n <= |pieces|
    ensures TokensIn(pieces, Relabel(spans, a, b), b, n) ==
            TokensIn(pieces, spans, a, n) + TokensIn(pieces, spans, b, n)
  {
    if n == 0 {
    } else {
      MergingLabelsAddsCounts(pieces, spans, textLen, a, b, n - 1);
      MergedStart(pieces, spans, textLen, a, b, n - 1);
    }
  }

  lemma OneHolder(spans: seq<Span>, textLen: int, i: nat, j: nat, b: int)
    requires IsPartition(spans, textLen) && i < |spans| && j < |spans|
    requires Holds(spans[i], b) && Holds(spans[j], b)
    ensures i == j
  {
    if i < j {
      SpansAscend(spans, textLen, i, j);
    } else if j < i {
      SpansAscend(spans, textLen, j, i);
    }
  }
}
