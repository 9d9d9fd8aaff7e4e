/** `ClassifyIntents`: an attempt sequence grouped by intent, each group judged on its own. */
module Intents {
  import opened Seqs

  datatype AttemptOutcome = OkResult | ErrorResult | Infrastructure | Unknown

  /** One tool call issued toward an intent; `seqNo` orders the attempts of the intent. */
  datatype Attempt = Attempt(intentId: string, seqNo: int, outcome: AttemptOutcome, args: string)

  datatype IntentOutcome = IntentOutcome(
    intentId: string, firstAttemptSuccess: bool, indeterminate: bool, corrective: nat, infrastructure: nat)

  // ---- grouping ----

  /** The intent ids in order of first appearance. */
  function Order(attempts: seq<Attempt>): seq<string> {
    if attempts == [] then []
    else
      var front := Order(attempts[..|attempts| - 1]);
      if Last(attempts).intentId in front then front else front + [Last(attempts).intentId]
  }

  /** The attempts of one intent, in the order given. */
  function Own(attempts: seq<Attempt>, id: string): seq<Attempt> {
    if attempts == [] then []
    else
      var front := Own(attempts[..|attempts| - 1], id);
      if Last(attempts).intentId == id then front + [Last(attempts)] else front
  }

  lemma {:induction false} OrderFacts(attempts: seq<Attempt>)
    ensures NoDup(Order(attempts))
    ensures forall id :: id in Order(attempts) <==> Own(attempts, id) != []
  {
    if attempts != [] {
      OrderFacts(attempts[..|attempts| - 1]);
    }
  }

  // ---- the stable sort by sequence number ----

  /** Insert after every entry that is not larger. */
  function InsertBySeq(s: seq<Attempt>, x: Attempt): seq<Attempt> {
    if s != [] && x.seqNo < Last(s).seqNo then InsertBySeq(s[..|s| - 1], x) + [Last(s)] else s + [x]
  }

  /** `sort.SliceStable` by sequence number. */
  function SortBySeq(s: seq<Attempt>): seq<Attempt> {
    if s == [] then [] else InsertBySeq(SortBySeq(s[..|s| - 1]), Last(s))
  }

  ghost predicate Ascending(s: seq<Attempt>) {
    forall i, j :: 0 <= i < j < |s| ==> s[i].seqNo <= s[j].seqNo
  }

  function AtSeq(s: seq<Attempt>, n: int): seq<Attempt> {
    if s == [] then []
    else
      var front := AtSeq(s[..|s| - 1], n);
      if Last(s).seqNo == n then front + [Last(s)] else front
  }

  lemma {:induction false} InsertAdds(s: seq<Attempt>, x: Attempt)
    ensures multiset(InsertBySeq(s, x)) == multiset(s) + multiset{x}
    ensures |InsertBySeq(s, x)| == |s| + 1
  {
    if s != [] && x.seqNo < Last(s).seqNo {
      InsertAdds(s[..|s| - 1], x);
      FrontAndLast(s);
    }
  }

  lemma {:induction false} InsertAscends(s: seq<Attempt>, x: Attempt)
    requires Ascending(s)
    ensures Ascending(InsertBySeq(s, x))
    ensures forall i :: 0 <= i < |InsertBySeq(s, x)| ==>
              InsertBySeq(s, x)[i].seqNo <= x.seqNo || (s != [] && InsertBySeq(s, x)[i].seqNo <= Last(s).seqNo)
  {
    if s != [] && x.seqNo < Last(s).seqNo {
      InsertAscends(s[..|s| - 1], x);
      AscendingSnoc(InsertBySeq(s[..|s| - 1], x), Last(s));
    } else {
      AscendingSnoc(s, x);
    }
  }

  lemma AscendingSnoc(s: seq<Attempt>, x: Attempt)
    requires Ascending(s) && forall i :: 0 <= i < |s| ==> s[i].seqNo <= x.seqNo
    ensures Ascending(s + [x])
  {
  }

  /** Inserting keeps equal sequence numbers in their order of arrival. */
  lemma {:induction false} InsertIsStable(s: seq<Attempt>, x: Attempt, n: int)
    requires Ascending(s)
    ensures AtSeq(InsertBySeq(s, x), n) == AtSeq(s, n) + (if x.seqNo == n then [x] else [])
  {
    var r := InsertBySeq(s, x);
    if s != [] && x.seqNo < Last(s).seqNo {
      InsertIsStable(s[..|s| - 1], x, n);
      assert r[..|r| - 1] == InsertBySeq(s[..|s| - 1], x);
      if Last(s).seqNo == n {
        assert x.seqNo != n;
      }
    } else {
      assert r[..|r| - 1] == s;
    }
  }

  lemma {:induction false} SortFacts(s: seq<Attempt>)
    ensures Ascending(SortBySeq(s)) && multiset(SortBySeq(s)) == multiset(s) && |SortBySeq(s)| == |s|
  {
    if s != [] {
      SortFacts(s[..|s| - 1]);
      InsertAscends(SortBySeq(s[..|s| - 1]), Last(s));
      InsertAdds(SortBySeq(s[..|s| - 1]), Last(s));
      FrontAndLast(s);
    }
  }

  lemma {:induction false} SortIsStable(s: seq<Attempt>, n: int)
    ensures AtSeq(SortBySeq(s), n) == AtSeq(s, n)
  {
    if s != [] {
      SortIsStable(s[..|s| - 1], n);
      SortFacts(s[..|s| - 1]);
      InsertIsStable(SortBySeq(s[..|s| - 1]), Last(s), n);
    }
  }

  // ---- judging one intent ----

  /** A retry is the network's when the attempt before it failed in transport and is re-sent unchanged. */
  predicate IsResend(prev: Attempt, next: Attempt) {
    prev.outcome == Infrastructure && next.args == prev.args
  }

  /** Re-sends among the first `n` attempts. */
  function Resends(group: seq<Attempt>, n: nat): nat
    requires n <= |group|
  {
    if n <= 1 then 0 else Resends(group, n - 1) + (if IsResend(group[n - 2], group[n - 1]) then 1 else 0)
  }

  /** Corrections among the first `n` attempts: every retry that is not a re-send. */
  function Corrections(group: seq<Attempt>, n: nat): nat
    requires n <= |group|
  {
    if n <= 1 then 0 else Corrections(group, n - 1) + (if IsResend(group[n - 2], group[n - 1]) then 0 else 1)
  }

  predicate Indeterminate(first: Attempt) {
    first.outcome == Infrastructure || first.outcome == Unknown
  }

  /** The verdict on an intent from its attempts in sequence order. */
  function Judge(id: string, group: seq<Attempt>): IntentOutcome
    requires group != []
  {
    var corrective := Corrections(group, |group|);
    IntentOutcome(
      id,
      !Indeterminate(group[0]) && group[0].outcome == OkResult && corrective == 0,
      Indeterminate(group[0]),
      corrective,
      Resends(group, |group|))
  }

  function Verdict(attempts: seq<Attempt>, id: string): IntentOutcome
    requires Own(attempts, id) != []
  {
    SortFacts(Own(attempts, id));
    Judge(id, SortBySeq(Own(attempts, id)))
  }

  method JudgeGroup(id: string, group: seq<Attempt>) returns (outcome: IntentOutcome)
    requires group != []
    ensures outcome == Judge(id, group)
  {
    var first := group[0];
    var indeterminate := first.outcome == Infrastructure || first.outcome == Unknown;
    var corrective: nat, infrastructure: nat := 0, 0;
    for i := 1 to |group|
      invariant corrective == Corrections(group, i) && infrastructure == Resends(group, i)
    {
      var prev := group[i - 1];
      if prev.outcome == Infrastructure && group[i].args == prev.args {
        infrastructure := infrastructure + 1;
        continue;
      }
      corrective := corrective + 1;
    }
    var success := !indeterminate && first.outcome == OkResult && corrective == 0;
    outcome := IntentOutcome(id, success, indeterminate, corrective, infrastructure);
  }

  /** One verdict per intent, in order of first appearance, each from the intent's own attempts alone. */
  function Classified(attempts: seq<Attempt>): seq<IntentOutcome> {
    OrderFacts(attempts);
    var order := Order(attempts);
    seq(|order|, i requires 0 <= i < |order| => assert order[i] in order; Verdict(attempts, order[i]))
  }

  method ClassifyIntents(attempts: seq<Attempt>) returns (out: seq<IntentOutcome>)
    ensures out == Classified(attempts)
  {
    var order, byIntent := Group(attempts);
    OrderFacts(attempts);
    out := [];
    for i := 0 to |order|
      invariant out == Classified(attempts)[..i]
    {
      assert order[i] in order;
      SortFacts(Own(attempts, order[i]));
      var outcome := JudgeGroup(order[i], SortBySeq(byIntent[order[i]]));
      out := out + [outcome];
    }
  }

  method Group(attempts: seq<Attempt>) returns (order: seq<string>, byIntent: map<string, seq<Attempt>>)
    ensures order == Order(attempts)
    ensures forall id :: id in order <==> id in byIntent
    ensures forall id :: id in byIntent ==> byIntent[id] == Own(attempts, id)
  {
    order, byIntent := [], map[];
    for k := 0 to |attempts|
      invariant order == Order(attempts[..k])
      invariant forall id :: id in order <==> id in byIntent
      invariant forall id :: id in byIntent ==> byIntent[id] == Own(attempts[..k], id)
    {
      var a := attempts[k];
      assert attempts[..k + 1][..k] == attempts[..k];
      OrderFacts(attempts[..k]);
      if a.intentId !in byIntent {
        order := order + [a.intentId];
      }
      byIntent := byIntent[a.intentId := (if a.intentId in byIntent then byIntent[a.intentId] else []) + [a]];
    }
    assert attempts[..|attempts|] == attempts;
  }

  // ---- what the verdicts add up to ----

  lemma {:induction false} RetriesPartition(group: seq<Attempt>, n: nat)
    requires 0 < n <= |group|
    ensures 1 + Corrections(group, n) + Resends(group, n) == n
  {
    if n > 1 {
      RetriesPartition(group, n - 1);
    }
  }

  /** A first attempt and the retries of an intent are its attempts. */
  lemma VerdictCounts(attempts: seq<Attempt>, id: string)
    requires Own(attempts, id) != []
    ensures 1 + Verdict(attempts, id).corrective + Verdict(attempts, id).infrastructure == |Own(attempts, id)|
  {
    SortFacts(Own(attempts, id));
    RetriesPartition(SortBySeq(Own(attempts, id)), |Own(attempts, id)|);
  }

  /** The attempts that verdicts account for: each one's first attempt and its retries. */
  function Accounted(outs: seq<IntentOutcome>): nat {
    if outs == [] then 0
    else Accounted(outs[..|outs| - 1]) + 1 + Last(outs).corrective + Last(outs).infrastructure
  }

  ghost function OwnTotal(attempts: seq<Attempt>, ids: seq<string>): nat {
    if ids == [] then 0 else OwnTotal(attempts, ids[..|ids| - 1]) + |Own(attempts, Last(ids))|
  }

  lemma {:induction false} AccountedIsOwnTotal(attempts: seq<Attempt>, ids: seq<string>, outs: seq<IntentOutcome>)
    requires |outs| == |ids|
    requires forall i :: 0 <= i < |ids| ==> Own(attempts, ids[i]) != [] && outs[i] == Verdict(attempts, ids[i])
    ensures Accounted(outs) == OwnTotal(attempts, ids)
  {
    if ids == [] {
    } else {
      AccountedIsOwnTotal(attempts, ids[..|ids| - 1], outs[..|ids| - 1]);
      VerdictCounts(attempts, Last(ids));
    }
  }

  /** One more attempt adds one to the intent it belongs to, and to no other. */
  lemma {:induction false} OwnTotalSnoc(attempts: seq<Attempt>, a: Attempt, ids: seq<string>)
    requires NoDup(ids)
    ensures OwnTotal(attempts + [a], ids) == OwnTotal(attempts, ids) + (if a.intentId in ids then 1 else 0)
  {
    if ids != [] {
      var front := ids[..|ids| - 1];
      OwnTotalSnoc(attempts, a, front);
      assert (attempts + [a])[..|attempts|] == attempts;
      assert ids == front + [Last(ids)];
    }
  }

  lemma NewIntent(front: seq<Attempt>, a: Attempt)
    requires a.intentId !in Order(front)
    ensures OwnTotal(front + [a], Order(front + [a])) == OwnTotal(front + [a], Order(front)) + 1
  {
    var all := front + [a];
    OrderFacts(front);
    assert all[..|all| - 1] == front;
    assert Order(all) == Order(front) + [a.intentId];
    assert Order(all)[..|Order(all)| - 1] == Order(front);
    assert Own(front, a.intentId) == [];
  }

  lemma {:induction false} OwnTotalIsAll(attempts: seq<Attempt>)
    ensures OwnTotal(attempts, Order(attempts)) == |attempts|
  {
    if attempts != [] {
      var front, a := attempts[..|attempts| - 1], Last(attempts);
      OwnTotalIsAll(front);
      OrderFacts(front);
      FrontAndLast(attempts);
      OwnTotalSnoc(front, a, Order(front));
      if a.intentId !in Order(front) {
        NewIntent(front, a);
      }
    }
  }

  /** No attempt is dropped or counted twice: first attempts and retries over all verdicts are all the attempts. */
  lemma AttemptsConserved(attempts: seq<Attempt>)
    ensures Accounted(Classified(attempts)) == |attempts|
  {
    OrderFacts(attempts);
    forall i | 0 <= i < |Order(attempts)|
      ensures Own(attempts, Order(attempts)[i]) != []
    {
      assert Order(attempts)[i] in Order(attempts);
    }
    AccountedIsOwnTotal(attempts, Order(attempts), Classified(attempts));
    OwnTotalIsAll(attempts);
  }

  lemma {:induction false} CorrectionsGrow(group: seq<Attempt>, m: nat, n: nat)
    requires m <= n <= |group|
    ensures Corrections(group, m) <= Corrections(group, n)
    decreases n
  {
    if m < n {
      CorrectionsGrow(group, m, n - 1);
    }
  }

  /** First-attempt success is a single attempt that returned a result: any retry after a result is a correction. */
  lemma SuccessIffSingleOk(attempts: seq<Attempt>, id: string)
    requires Own(attempts, id) != []
    ensures Verdict(attempts, id).firstAttemptSuccess <==>
            |Own(attempts, id)| == 1 && Own(attempts, id)[0].outcome == OkResult
  {
    var own := Own(attempts, id);
    var group := SortBySeq(own);
    SortFacts(own);
    if |own| == 1 {
      assert own == [own[0]] && own[..0] == [];
      assert group == InsertBySeq(SortBySeq([]), own[0]);
    } else if group[0].outcome == OkResult {
      assert Corrections(group, 2) == 1;
      CorrectionsGrow(group, 2, |group|);
    }
  }

  /** With distinct sequence numbers, the order in which an intent's attempts are listed does not matter. */
  lemma ListingOrderIsIrrelevant(a: seq<Attempt>, b: seq<Attempt>, id: string)
    requires Own(a, id) != [] && Own(b, id) != []
    requires multiset(Own(a, id)) == multiset(Own(b, id))
    requires forall i, j :: 0 <= i < j < |Own(a, id)| ==> Own(a, id)[i].seqNo != Own(a, id)[j].seqNo
    ensures Verdict(a, id) == Verdict(b, id)
  {
    var s, t := SortBySeq(Own(a, id)), SortBySeq(Own(b, id));
    SortFacts(Own(a, id));
    SortFacts(Own(b, id));
    SeqNosStayDistinct(Own(a, id), s);
    AscendingIsUnique(s, t);
  }

  ghost predicate DistinctSeqs(s: seq<Attempt>) {
    forall i, j :: 0 <= i < j < |s| ==> s[i].seqNo != s[j].seqNo
  }

  lemma SeqNosStayDistinct(s: seq<Attempt>, t: seq<Attempt>)
    requires DistinctSeqs(s) && multiset(s) == multiset(t)
    ensures DistinctSeqs(t)
  {
    forall i, j | 0 <= i < j < |t|
      ensures t[i].seqNo != t[j].seqNo
    {
      if t[i] == t[j] {
        CountedTwice(t, i, j);
        TwiceListed(s, t[i]);
      } else {
        assert t[i] in multiset(s) && t[j] in multiset(s);
      }
    }
  }

  lemma CountedTwice(t: seq<Attempt>, i: nat, j: nat)
    requires i < j < |t| && t[i] == t[j]
    ensures multiset(t)[t[i]] >= 2
  {
    var front, back := t[..j], t[j..];
    assert t == front + back;
    assert front[i] == t[i] && back[0] == t[j];
    assert t[i] in multiset(front) && t[j] in multiset(back);
  }

  lemma {:induction false} TwiceListed(s: seq<Attempt>, x: Attempt)
    requires DistinctSeqs(s)
    ensures multiset(s)[x] <= 1
  {
    if s != [] {
      TwiceListed(s[1..], x);
      assert s == [s[0]] + s[1..];
      if s[0] == x {
        assert x !in s[1..];
      }
    }
  }

  lemma SameFirst(s: seq<Attempt>, t: seq<Attempt>)
    requires Ascending(s) && Ascending(t) && DistinctSeqs(s) && multiset(s) == multiset(t) && s != [] && t != []
    ensures s[0] == t[0]
  {
    assert s[0] in multiset(t) && t[0] in multiset(s);
  }

  lemma {:induction false} AscendingIsUnique(s: seq<Attempt>, t: seq<Attempt>)
    requires Ascending(s) && Ascending(t) && DistinctSeqs(s) && multiset(s) == multiset(t)
    ensures s == t
  {
    assert |multiset(s)| == |s| && |multiset(t)| == |t|;
    if s != [] {
      SameFirst(s, t);
      HeadAndTail(s);
      HeadAndTail(t);
      assert multiset(s[1..]) == multiset(s) - multiset{s[0]};
      assert multiset(t[1..]) == multiset(t) - multiset{s[0]};
      AscendingIsUnique(s[1..], t[1..]);
    }
  }
}
