/**
 * What a verdict on an intent says of the attempts themselves: which attempts it judges, in which order, and how their
 * outcomes and arguments decide it.
 */
module Verdicts {
  import opened Seqs
  import opened Intents

  /** Attempt `i` comes before attempt `j`: by sequence number, and by arrival where those are equal. */
  ghost predicate Precedes(attempts: seq<Attempt>, i: nat, j: nat)
    requires i < |attempts| && j < |attempts|
  {
    attempts[i].seqNo < attempts[j].seqNo || (attempts[i].seqNo == attempts[j].seqNo && i < j)
  }

  /** `group` holds these attempts, the ones at positions `at`, each before the next. */
  ghost predicate Ordered(attempts: seq<Attempt>, at: seq<nat>, group: seq<Attempt>) {
    && |group| == |at|
    && (forall j :: 0 <= j < |at| ==> at[j] < |attempts| && group[j] == attempts[at[j]])
    && (forall j, m :: 0 <= j < m < |at| ==> Precedes(attempts, at[j], at[m]))
  }

  /** They are the attempts of this intent. */
  ghost predicate Owns(attempts: seq<Attempt>, id: string, at: seq<nat>) {
    forall i: nat :: i in at <==> i < |attempts| && attempts[i].intentId == id
  }

  /** A place for one more position, after all that precede it. */
  ghost function InsertAt(attempts: seq<Attempt>, at: seq<nat>, x: nat): seq<nat>
    requires x < |attempts| && forall j :: 0 <= j < |at| ==> at[j] < |attempts|
  {
    if at != [] && attempts[x].seqNo < attempts[Last(at)].seqNo
    then InsertAt(attempts, at[..|at| - 1], x) + [Last(at)]
    else at + [x]
  }

  /** Inserting the newest attempt keeps the order, and does to the attempts what the sort does. */
  lemma {:induction false} InsertOrders(attempts: seq<Attempt>, at: seq<nat>, group: seq<Attempt>, x: nat)
    requires Ordered(attempts, at, group) && x < |attempts| && forall j :: 0 <= j < |at| ==> at[j] < x
    ensures Ordered(attempts, InsertAt(attempts, at, x), InsertBySeq(group, attempts[x]))
    ensures forall i: nat :: i in InsertAt(attempts, at, x) <==> i in at || i == x
  {
    if at != [] && attempts[x].seqNo < attempts[Last(at)].seqNo {
      var front := at[..|at| - 1];
      InsertOrders(attempts, front, group[..|group| - 1], x);
      FrontAndLast(at);
      assert forall i: nat :: i in at <==> i in front || i == Last(at);
      OrderedSnoc(attempts, InsertAt(attempts, front, x), InsertBySeq(group[..|group| - 1], attempts[x]), Last(at));
    } else {
      OrderedSnoc(attempts, at, group, x);
    }
  }

  lemma InsertNewest(attempts: seq<Attempt>, at: seq<nat>, group: seq<Attempt>, x: nat) returns (more: seq<nat>)
    requires Ordered(attempts, at, group) && x < |attempts| && forall i: nat :: i in at ==> i < x
    ensures Ordered(attempts, more, InsertBySeq(group, attempts[x]))
    ensures forall i: nat :: i in more <==> i in at || i == x
  {
    assert forall j :: 0 <= j < |at| ==> at[j] in at;
    InsertOrders(attempts, at, group, x);
    more := InsertAt(attempts, at, x);
  }

  lemma OrderedSnoc(attempts: seq<Attempt>, at: seq<nat>, group: seq<Attempt>, x: nat)
    requires Ordered(attempts, at, group) && x < |attempts|
    requires forall i: nat :: i in at && i < |attempts| ==> Precedes(attempts, i, x)
    ensures Ordered(attempts, at + [x], group + [attempts[x]])
    ensures forall i: nat :: i in at + [x] <==> i in at || i == x
  {
    forall j, m | 0 <= j < m < |at| + 1
      ensures Precedes(attempts, (at + [x])[j], (at + [x])[m])
    {
      if m == |at| {
        assert at[j] in at;
      }
    }
  }

  lemma SortSnoc(s: seq<Attempt>, x: Attempt)
    ensures SortBySeq(s + [x]) == InsertBySeq(SortBySeq(s), x)
  {
    assert (s + [x])[..|s|] == s;
  }

  /** The attempts of an intent among the first `n`, sorted: which they are, and in which order. */
  lemma {:induction false} SortedGroup(attempts: seq<Attempt>, id: string, n: nat) returns (at: seq<nat>)
    requires n <= |attempts|
    ensures Ordered(attempts, at, SortBySeq(Own(attempts[..n], id)))
    ensures forall i: nat :: i in at <==> i < n && attempts[i].intentId == id
  {
    if n == 0 {
      at := [];
    } else {
      at := SortedGroup(attempts, id, n - 1);
      assert attempts[..n][..n - 1] == attempts[..n - 1];
      if attempts[n - 1].intentId == id {
        SortSnoc(Own(attempts[..n - 1], id), attempts[n - 1]);
        at := InsertNewest(attempts, at, SortBySeq(Own(attempts[..n - 1], id)), n - 1);
      }
    }
  }

  // ---- the verdict on a group ----

  /** Attempt `j` of the group re-sends the one before it, unchanged, after a transport failure. */
  ghost predicate Resent(group: seq<Attempt>, j: int) {
    0 < j < |group| && group[j - 1].outcome == Infrastructure && group[j].args == group[j - 1].args
  }

  ghost function ResentSet(group: seq<Attempt>, n: nat): set<nat> {
    set j: nat | j < n && Resent(group, j)
  }

  ghost function CorrectedSet(group: seq<Attempt>, n: nat): set<nat> {
    set j: nat | 0 < j < n && !Resent(group, j)
  }

  lemma {:induction false} RetriesAreCounted(group: seq<Attempt>, n: nat)
    requires n <= |group|
    ensures Resends(group, n) == |ResentSet(group, n)| && Corrections(group, n) == |CorrectedSet(group, n)|
  {
    if n > 0 {
      RetriesAreCounted(group, n - 1);
      NextRetry(group, n - 1);
    }
  }

  lemma NextRetry(group: seq<Attempt>, n: nat)
    requires n < |group|
    ensures |ResentSet(group, n + 1)| == |ResentSet(group, n)| + (if Resent(group, n) then 1 else 0)
    ensures |CorrectedSet(group, n + 1)| == |CorrectedSet(group, n)| + (if Resent(group, n) || n == 0 then 0 else 1)
  {
    OneMore(ResentSet(group, n), ResentSet(group, n + 1), n, Resent(group, n));
    OneMore(CorrectedSet(group, n), CorrectedSet(group, n + 1), n, n > 0 && !Resent(group, n));
  }

  lemma OneMore(s: set<nat>, t: set<nat>, n: nat, more: bool)
    requires n !in s && forall j :: j in t <==> j in s || (j == n && more)
    ensures |t| == |s| + (if more then 1 else 0)
  {
    assert t == if more then s + {n} else s;
  }

  /**
   * A retry is the network's when it re-sends an attempt that failed in transport, unchanged, and a correction
   * otherwise; the verdict is out when the first attempt has no outcome of its own, and a success is a single result.
   */
  ghost predicate VerdictReads(group: seq<Attempt>, o: IntentOutcome) {
    && group != []
    && o.infrastructure == |ResentSet(group, |group|)| && o.corrective == |CorrectedSet(group, |group|)|
    && (o.indeterminate <==> group[0].outcome == Infrastructure || group[0].outcome == Unknown)
    && (o.firstAttemptSuccess <==> |group| == 1 && group[0].outcome == OkResult)
  }

  lemma JudgeReads(id: string, group: seq<Attempt>)
    requires group != []
    ensures VerdictReads(group, Judge(id, group)) && Judge(id, group).intentId == id
  {
    RetriesAreCounted(group, |group|);
    RetriesPartition(group, |group|);
    if |group| > 1 && group[0].outcome == OkResult {
      assert Corrections(group, 2) == 1;
      CorrectionsGrow(group, 2, |group|);
    }
  }

  function IntentIds(attempts: seq<Attempt>): seq<string> {
    Map(attempts, (a: Attempt) => a.intentId)
  }

  lemma {:induction false} OrderIsDistinct(attempts: seq<Attempt>)
    ensures Order(attempts) == Distinct(IntentIds(attempts))
  {
    if attempts != [] {
      var front := attempts[..|attempts| - 1];
      OrderIsDistinct(front);
      assert IntentIds(attempts)[..|attempts| - 1] == IntentIds(front);
    }
  }

  /** A verdict judges all attempts of its intent, in sequence order, those with equal numbers as they arrived. */
  ghost predicate Judges(attempts: seq<Attempt>, o: IntentOutcome, at: seq<nat>, group: seq<Attempt>) {
    Owns(attempts, o.intentId, at) && Ordered(attempts, at, group) && VerdictReads(group, o)
  }

  ghost predicate IsJudged(attempts: seq<Attempt>, o: IntentOutcome) {
    exists at, group :: Judges(attempts, o, at, group)
  }

  lemma VerdictIsRead(attempts: seq<Attempt>, id: string)
    requires Own(attempts, id) != []
    ensures Verdict(attempts, id).intentId == id
    ensures IsJudged(attempts, Verdict(attempts, id))
  {
    var at := SortedGroup(attempts, id, |attempts|);
    assert attempts[..|attempts|] == attempts;
    SortFacts(Own(attempts, id));
    JudgeReads(id, SortBySeq(Own(attempts, id)));
    assert Judges(attempts, Verdict(attempts, id), at, SortBySeq(Own(attempts, id)));
  }

  /** The verdicts are given under these ids, in this order. */
  ghost predicate Under(outs: seq<IntentOutcome>, ids: seq<string>) {
    |outs| == |ids| && forall i :: 0 <= i < |ids| ==> outs[i].intentId == ids[i]
  }

  lemma EachIsRead(attempts: seq<Attempt>)
    ensures Under(Classified(attempts), Order(attempts))
    ensures forall i :: 0 <= i < |Classified(attempts)| ==> IsJudged(attempts, Classified(attempts)[i])
  {
    OrderFacts(attempts);
    forall i | 0 <= i < |Order(attempts)|
      ensures Classified(attempts)[i].intentId == Order(attempts)[i]
      ensures IsJudged(attempts, Classified(attempts)[i])
    {
      assert Order(attempts)[i] in Order(attempts);
      VerdictIsRead(attempts, Order(attempts)[i]);
    }
  }

  lemma FirstsAreListed(s: seq<string>, outs: seq<IntentOutcome>)
    requires Under(outs, Distinct(s))
    ensures forall id :: (exists i :: 0 <= i < |outs| && outs[i].intentId == id) <==> id in s
    ensures forall i, j :: 0 <= i < j < |outs| ==>
              outs[i].intentId != outs[j].intentId && ComesBefore(s, outs[i].intentId, outs[j].intentId)
  {
    DistinctFacts(s);
    forall i, j | 0 <= i < j < |outs|
      ensures outs[i].intentId != outs[j].intentId && ComesBefore(s, outs[i].intentId, outs[j].intentId)
    {
      DistinctInOrder(s, i, j);
    }
    forall id
      ensures (exists i :: 0 <= i < |outs| && outs[i].intentId == id) <==> id in s
    {
      if i :| 0 <= i < |outs| && outs[i].intentId == id {
        assert Distinct(s)[i] in Distinct(s);
      }
      if id in s {
        assert id in Distinct(s);
        var i :| 0 <= i < |outs| && Distinct(s)[i] == id;
        assert outs[i].intentId == id;
      }
    }
  }

  /** One verdict per intent, in the order in which the intents first appear, each on all attempts of its intent. */
  lemma ClassifiedReads(attempts: seq<Attempt>)
    ensures var outs := Classified(attempts);
            && (forall i :: 0 <= i < |outs| ==> IsJudged(attempts, outs[i]))
            && (forall id :: (exists i :: 0 <= i < |outs| && outs[i].intentId == id) <==> id in IntentIds(attempts))
            && (forall i, j :: 0 <= i < j < |outs| ==>
                  && outs[i].intentId != outs[j].intentId
                  && ComesBefore(IntentIds(attempts), outs[i].intentId, outs[j].intentId))
  {
    EachIsRead(attempts);
    OrderIsDistinct(attempts);
    FirstsAreListed(IntentIds(attempts), Classified(attempts));
  }
}
