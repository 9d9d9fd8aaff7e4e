/**
 * What the loader makes of a trajectory, said of the messages themselves: which are refused, what a call left
 * unanswered leads to, and how the last result for a call decides its outcome.
 */
module TrajectoryMessages {
  import opened Wrappers
  import opened Seqs
  import opened Intents
  import opened Trajectory

  // ---- what is refused, what is missing ----

  predicate IssuesId(m: Message, id: string) {
    exists c :: c in m.calls && c.id == id
  }

  predicate Nameless(m: Message) {
    exists c :: c in m.calls && c.name == ""
  }

  ghost predicate IssuedBy(msgs: seq<Message>, id: string, n: int) {
    exists i :: 0 <= i < n && i < |msgs| && IssuesId(msgs[i], id)
  }

  /** Message `i` names its calls, and is no result or one for a call issued by then. */
  ghost predicate ReadableAt(msgs: seq<Message>, i: int)
    requires 0 <= i < |msgs|
  {
    !Nameless(msgs[i]) && (msgs[i].resultFor == "" || IssuedBy(msgs, msgs[i].resultFor, i + 1))
  }

  ghost predicate Readable(msgs: seq<Message>) {
    forall i :: 0 <= i < |msgs| ==> ReadableAt(msgs, i)
  }

  ghost predicate FirstUnreadable(msgs: seq<Message>, i: int) {
    0 <= i < |msgs| && !ReadableAt(msgs, i) && forall j :: 0 <= j < i ==> ReadableAt(msgs, j)
  }

  ghost predicate HasResult(msgs: seq<Message>, id: string) {
    exists i :: 0 <= i < |msgs| && msgs[i].resultFor == id
  }

  /** Message `i` is the last to issue a call with this id. */
  ghost predicate LastIssuer(msgs: seq<Message>, id: string, i: int) {
    0 <= i < |msgs| && IssuesId(msgs[i], id) && forall j :: i < j < |msgs| ==> !IssuesId(msgs[j], id)
  }

  /** A call with an id of its own has no result; message `i` was the last to issue it. */
  ghost predicate Unanswered(msgs: seq<Message>, id: string, i: int) {
    id != "" && LastIssuer(msgs, id, i) && !HasResult(msgs, id)
  }

  ghost predicate CallsAfter(msgs: seq<Message>, i: int) {
    exists j :: i < j < |msgs| && 0 <= j && msgs[j].calls != []
  }

  /**
   * Refused for the first message that names no tool or answers no call; refused when a call went unanswered and later
   * messages issue more; loaded otherwise, and marked truncated exactly when a call went unanswered.
   */
  ghost predicate LoadsMessages(msgs: seq<Message>, r: Result<Loaded, LoadError>) {
    && (forall i :: FirstUnreadable(msgs, i) ==>
          r == Err(if Nameless(msgs[i]) then NamelessCall else UnknownResult))
    && (Readable(msgs) ==>
          if exists id, i :: Unanswered(msgs, id, i) && CallsAfter(msgs, i) then r == Err(DroppedResults)
          else r.Ok? && (r.value.truncated <==> exists id, i :: Unanswered(msgs, id, i)))
  }

  /** What the state knows of an id from the messages read so far. */
  ghost predicate KnowsId(s: State, msgs: seq<Message>, id: string) {
    && (id in s.byCall <==> id != "" && IssuedBy(msgs, id, |msgs|))
    && (id in s.byCall ==> LastIssuer(msgs, id, s.byCall[id].issuedAt))
    && (id in s.resolved <==> id != "" && HasResult(msgs, id))
  }

  /** The last message known to have issued a call. */
  ghost predicate KnowsLast(s: State, msgs: seq<Message>) {
    && -1 <= s.lastIssuedAt < |msgs| && !CallsAfter(msgs, s.lastIssuedAt)
    && (s.lastIssuedAt >= 0 ==> msgs[s.lastIssuedAt].calls != [])
  }

  ghost predicate Knows(s: State, msgs: seq<Message>) {
    Sound(s) && KnowsLast(s, msgs) && forall id :: KnowsId(s, msgs, id)
  }

  /** The first calls of a message, on their own. */
  function Asking(calls: seq<ToolCall>): Message {
    Message(calls, "", None, None, "")
  }

  /** What one more message adds to what is known of an id. */
  lemma SameInFront(front: seq<Message>, m: Message, id: string)
    ensures var msgs := front + [m];
            && (IssuedBy(msgs, id, |msgs|) <==> IssuedBy(front, id, |front|) || IssuesId(m, id))
            && (HasResult(msgs, id) <==> HasResult(front, id) || m.resultFor == id)
  {
    var msgs := front + [m];
    assert msgs[|front|] == m && forall i :: 0 <= i < |front| ==> msgs[i] == front[i];
    if i :| 0 <= i < |msgs| && IssuesId(msgs[i], id) && i < |front| {
      assert IssuesId(front[i], id);
    }
    if i :| 0 <= i < |front| && IssuesId(front[i], id) {
      assert IssuesId(msgs[i], id);
    }
    if i :| 0 <= i < |msgs| && msgs[i].resultFor == id && i < |front| {
      assert front[i].resultFor == id;
    }
    if i :| 0 <= i < |front| && front[i].resultFor == id {
      assert msgs[i].resultFor == id;
    }
  }

  /** A message that does not issue an id leaves its last issuer the last. */
  lemma StillLast(front: seq<Message>, m: Message, id: string, i: int)
    requires LastIssuer(front, id, i) && !IssuesId(m, id)
    ensures LastIssuer(front + [m], id, i)
  {
    var msgs := front + [m];
    assert msgs[|front|] == m && forall j :: 0 <= j < |front| ==> msgs[j] == front[j];
  }

  lemma NoLongerLast(front: seq<Message>, m: Message, id: string, i: int)
    requires LastIssuer(front + [m], id, i)
    ensures if IssuesId(m, id) then i == |front| else LastIssuer(front, id, i)
  {
    var msgs := front + [m];
    assert msgs[|front|] == m && forall j :: 0 <= j < |front| ==> msgs[j] == front[j];
    assert IssuesId(m, id) ==> IssuesId(msgs[|front|], id);
  }

  /** A new message with no calls yet changes nothing. */
  lemma KnowsNext(s: State, front: seq<Message>)
    requires Knows(s, front)
    ensures Knows(s, front + [Asking([])])
  {
    var msgs := front + [Asking([])];
    forall id
      ensures KnowsId(s, msgs, id)
    {
      assert KnowsId(s, front, id);
      SameInFront(front, Asking([]), id);
      if id in s.byCall {
        StillLast(front, Asking([]), id, s.byCall[id].issuedAt);
      }
    }
    assert KnowsLast(s, msgs) by {
      assert msgs[|front|].calls == [] && forall i :: 0 <= i < |front| ==> msgs[i] == front[i];
    }
  }

  lemma IssuesMore(calls: seq<ToolCall>, c: ToolCall, id: string)
    ensures IssuesId(Asking(calls + [c]), id) <==> IssuesId(Asking(calls), id) || c.id == id
  {
    assert c in calls + [c] && forall d :: d in calls + [c] <==> d in calls || d == c;
  }

  /** One more call in the last message. */
  lemma CallKnowsId(s: State, front: seq<Message>, calls: seq<ToolCall>, c: ToolCall, id: string)
    requires KnowsId(s, front + [Asking(calls)], id)
    ensures KnowsId(IssueCall(s, c, |front|), front + [Asking(calls + [c])], id)
  {
    var before, after := Asking(calls), Asking(calls + [c]);
    SameInFront(front, before, id);
    SameInFront(front, after, id);
    IssuesMore(calls, c, id);
    if id == c.id {
      assert (front + [after])[|front|] == after;
    } else if id in s.byCall {
      NoLongerLast(front, before, id, s.byCall[id].issuedAt);
      if IssuesId(before, id) {
        assert (front + [after])[|front|] == after;
      } else {
        StillLast(front, after, id, s.byCall[id].issuedAt);
      }
    }
  }

  lemma KnowsCall(s: State, front: seq<Message>, calls: seq<ToolCall>, c: ToolCall)
    requires Knows(s, front + [Asking(calls)])
    ensures Knows(IssueCall(s, c, |front|), front + [Asking(calls + [c])])
  {
    forall id
      ensures KnowsId(IssueCall(s, c, |front|), front + [Asking(calls + [c])], id)
    {
      assert KnowsId(s, front + [Asking(calls)], id);
      CallKnowsId(s, front, calls, c, id);
    }
    assert (front + [Asking(calls + [c])])[|front|].calls == calls + [c];
  }

  lemma ResultKnowsId(s: State, front: seq<Message>, m: Message, outcome: AttemptOutcome, id: string)
    requires Sound(s) && KnowsId(s, front + [Asking(m.calls)], id)
    requires m.resultFor == "" || m.resultFor in s.byCall
    ensures KnowsId(if m.resultFor == "" then s else Resolve(s, m.resultFor, outcome), front + [m], id)
  {
    var asking := Asking(m.calls);
    SameInFront(front, asking, id);
    SameInFront(front, m, id);
    assert IssuesId(m, id) <==> IssuesId(asking, id);
    if id in s.byCall {
      NoLongerLast(front, asking, id, s.byCall[id].issuedAt);
      if IssuesId(m, id) {
        assert (front + [m])[|front|] == m;
      } else {
        StillLast(front, m, id, s.byCall[id].issuedAt);
      }
    }
  }

  /** The calls of a message with the result it is, if it is one. */
  lemma KnowsResult(s: State, front: seq<Message>, m: Message, outcome: AttemptOutcome)
    requires Knows(s, front + [Asking(m.calls)]) && (m.resultFor == "" || m.resultFor in s.byCall)
    ensures Knows(if m.resultFor == "" then s else Resolve(s, m.resultFor, outcome), front + [m])
  {
    var s' := if m.resultFor == "" then s else Resolve(s, m.resultFor, outcome);
    forall id
      ensures KnowsId(s', front + [m], id)
    {
      assert KnowsId(s, front + [Asking(m.calls)], id);
      ResultKnowsId(s, front, m, outcome, id);
    }
    SameCalls(s, front, Asking(m.calls), m);
  }

  lemma SameCalls(s: State, front: seq<Message>, m: Message, m': Message)
    requires KnowsLast(s, front + [m]) && m.calls == m'.calls
    ensures KnowsLast(s, front + [m'])
  {
    var before, after := front + [m], front + [m'];
    assert forall i :: 0 <= i < |after| ==> after[i].calls == before[i].calls;
  }

  /** The calls of a message are read one by one after the events `before`, up to the first without a name. */
  ghost predicate CallsRead(before: seq<Event>, front: seq<Message>, m: Message, d: nat)
    requires d <= |m.calls|
  {
    var events := before + Issues(m.calls, |front|)[..d];
    if exists c :: 0 <= c < d && m.calls[c].name == "" then Refusal(events) == Some(NamelessCall)
    else Play(events).Some? && Knows(Play(events).value, front + [Asking(m.calls[..d])])
  }

  lemma {:induction false} CallsAreRead(before: seq<Event>, s: State, front: seq<Message>, m: Message, d: nat)
    requires d <= |m.calls| && Play(before) == Some(s) && Knows(s, front)
    ensures CallsRead(before, front, m, d)
  {
    if d == 0 {
      AppendNothing(before, Issues(m.calls, |front|));
      KnowsNext(s, front);
      assert m.calls[..0] == [];
    } else {
      CallsAreRead(before, s, front, m, d - 1);
      NextCallIsRead(before, front, m, d - 1);
    }
  }

  lemma {:induction false} NextCallIsRead(before: seq<Event>, front: seq<Message>, m: Message, d: nat)
    requires d < |m.calls| && CallsRead(before, front, m, d)
    ensures CallsRead(before, front, m, d + 1)
  {
    var c, e := m.calls[d], Issue(m.calls[d], |front|);
    var events := before + Issues(m.calls, |front|)[..d];
    AppendTake(before, Issues(m.calls, |front|), d);
    if exists c :: 0 <= c < d && m.calls[c].name == "" {
      RefusedStaysRefused(events, [e]);
    } else {
      NamedCallIsRead(events, Play(events).value, front, m.calls[..d], c);
      assert m.calls[..d + 1] == m.calls[..d] + [c];
    }
  }

  lemma {:induction false} NamedCallIsRead(events: seq<Event>, s: State, front: seq<Message>, calls: seq<ToolCall>,
                                           c: ToolCall)
    requires Play(events) == Some(s) && Knows(s, front + [Asking(calls)])
    ensures var more := events + [Issue(c, |front|)];
            if c.name == "" then Refusal(more) == Some(NamelessCall)
            else Play(more).Some? && Knows(Play(more).value, front + [Asking(calls + [c])])
  {
    PlaySnoc(events, Issue(c, |front|));
    if c.name != "" {
      KnowsCall(s, front, calls, c);
    }
  }

  /** One more message: refused if it cannot be read, and known otherwise. */
  lemma {:induction false} MessageIsRead(front: seq<Message>, m: Message, s: State)
    requires Play(Events(front)) == Some(s) && Knows(s, front)
    ensures var msgs := front + [m];
            if ReadableAt(msgs, |front|) then Play(Events(msgs)).Some? && Knows(Play(Events(msgs)).value, msgs)
            else Refusal(Events(msgs)) == Some(if Nameless(m) then NamelessCall else UnknownResult)
  {
    EventsSnoc(front, m);
    EventsOfMessage(Events(front), s, front, m);
  }

  lemma {:induction false} EventsOfMessage(before: seq<Event>, s: State, front: seq<Message>, m: Message)
    requires Play(before) == Some(s) && Knows(s, front)
    ensures var (msgs, events) := (front + [m], before + Issues(m.calls, |front|) + Replies(m));
            if ReadableAt(msgs, |front|) then Play(events).Some? && Knows(Play(events).value, msgs)
            else Refusal(events) == Some(if Nameless(m) then NamelessCall else UnknownResult)
  {
    var asked := before + Issues(m.calls, |front|);
    CallsAreRead(before, s, front, m, |m.calls|);
    assert Issues(m.calls, |front|)[..|m.calls|] == Issues(m.calls, |front|) && m.calls[..|m.calls|] == m.calls;
    NamelessAt(m);
    if Nameless(m) {
      RefusedStaysRefused(asked, Replies(m));
    } else {
      ResultIsRead(front, m, asked, Play(asked).value);
    }
  }

  lemma {:induction false} ResultIsRead(front: seq<Message>, m: Message, asked: seq<Event>, s: State)
    requires Play(asked) == Some(s) && Knows(s, front + [Asking(m.calls)]) && !Nameless(m)
    ensures var (msgs, events) := (front + [m], asked + Replies(m));
            if ReadableAt(msgs, |front|) then Play(events).Some? && Knows(Play(events).value, msgs)
            else Refusal(events) == Some(UnknownResult)
  {
    SameInFront(front, m, m.resultFor);
    SameInFront(front, Asking(m.calls), m.resultFor);
    assert KnowsId(s, front + [Asking(m.calls)], m.resultFor);
    if m.resultFor == "" {
      AppendNothing(asked, asked);
    } else {
      PlaySnoc(asked, Reply(m.resultFor, ResultOutcome(m)));
    }
    if m.resultFor == "" || m.resultFor in s.byCall {
      KnowsResult(s, front, m, ResultOutcome(m));
    }
  }

  lemma NamelessAt(m: Message)
    ensures Nameless(m) <==> exists c :: 0 <= c < |m.calls| && m.calls[c].name == ""
  {
    if c :| 0 <= c < |m.calls| && m.calls[c].name == "" {
      assert m.calls[c] in m.calls;
    }
  }

  lemma {:induction false} MessagesAreRead(msgs: seq<Message>)
    ensures Readable(msgs) ==> Play(Events(msgs)).Some? && Knows(Play(Events(msgs)).value, msgs)
    ensures forall i :: FirstUnreadable(msgs, i) ==>
              Refusal(Events(msgs)) == Some(if Nameless(msgs[i]) then NamelessCall else UnknownResult)
  {
    if msgs != [] {
      var n := |msgs| - 1;
      var front, m := msgs[..n], msgs[n];
      MessagesAreRead(front);
      assert msgs == front + [m];
      forall i | 0 <= i < n
        ensures ReadableAt(msgs, i) <==> ReadableAt(front, i)
      {
        ReadableInFront(front, m, i);
      }
      if Readable(front) {
        MessageIsRead(front, m, Play(Events(front)).value);
        assert forall i :: FirstUnreadable(msgs, i) ==> i == n;
      } else {
        EventsSnoc(front, m);
        forall i | FirstUnreadable(msgs, i)
          ensures Refusal(Events(msgs)) == Some(if Nameless(msgs[i]) then NamelessCall else UnknownResult)
        {
          assert i < n && FirstUnreadable(front, i);
          RefusedStaysRefused(Events(front), Issues(m.calls, n) + Replies(m));
          Associate(Events(front), Issues(m.calls, n), Replies(m));
        }
      }
    }
  }

  lemma ReadableInFront(front: seq<Message>, m: Message, i: nat)
    requires i < |front|
    ensures ReadableAt(front + [m], i) <==> ReadableAt(front, i)
  {
    var msgs := front + [m];
    assert msgs[i] == front[i];
    if j :| 0 <= j < i + 1 && j < |msgs| && IssuesId(msgs[j], msgs[i].resultFor) {
      assert IssuesId(front[j], front[i].resultFor);
    }
    if j :| 0 <= j < i + 1 && j < |front| && IssuesId(front[j], front[i].resultFor) {
      assert IssuesId(msgs[j], msgs[i].resultFor);
    }
  }

  /** What the loader returns, said of the messages alone. */
  lemma LoadsAsMessages(msgs: seq<Message>, r: Result<Loaded, LoadError>)
    requires LoadsAs(Events(msgs), r)
    ensures LoadsMessages(msgs, r)
    ensures r.Ok? ==> ReadsCalls(msgs, r.value.attempts)
  {
    if r.Ok? {
      CallsAreAttempts(msgs);
    }
    MessagesAreRead(msgs);
    RefusedIffNoState(Events(msgs));
    if Readable(msgs) {
      var s := Play(Events(msgs)).value;
      forall id, i | Unanswered(msgs, id, i)
        ensures id in s.byCall && id !in s.resolved && s.byCall[id].issuedAt == i
        ensures CallsAfter(msgs, i) <==> i != s.lastIssuedAt
      {
        assert KnowsId(s, msgs, id);
        assert IssuedBy(msgs, id, |msgs|);
        CalledSince(s, msgs, i);
      }
      forall id | id in s.byCall && id !in s.resolved
        ensures Unanswered(msgs, id, s.byCall[id].issuedAt)
      {
        assert KnowsId(s, msgs, id);
      }
    }
  }

  lemma CalledSince(s: State, msgs: seq<Message>, i: nat)
    requires KnowsLast(s, msgs) && i < |msgs| && msgs[i].calls != []
    ensures CallsAfter(msgs, i) <==> i != s.lastIssuedAt
  {
    assert s.lastIssuedAt >= i;
  }

  // ---- the attempts, call by call ----

  /** The calls of all messages, in order. */
  function Issued(msgs: seq<Message>): seq<ToolCall> {
    if msgs == [] then [] else Issued(msgs[..|msgs| - 1]) + Last(msgs).calls
  }

  /** Message `i` is the last result for this id. */
  ghost predicate LastResult(msgs: seq<Message>, id: string, i: int) {
    0 <= i < |msgs| && msgs[i].resultFor == id && forall j :: i < j < |msgs| ==> msgs[j].resultFor != id
  }

  /**
   * The outcome is the one the last result for the call tells: a success unless a flag says error, the network's fault
   * for the four transport error types, the call's otherwise; and it is unknown exactly when there is no result.
   */
  ghost predicate ReadsOutcome(msgs: seq<Message>, id: string, o: AttemptOutcome) {
    && (o == Unknown <==> !HasResult(msgs, id))
    && forall i :: LastResult(msgs, id, i) ==>
         var m := msgs[i];
         var failed := m.isError == Some(true) || m.contentIsError == Some(true);
         var transport := m.errorType in {"transport", "network", "connection", "timeout"};
         && (o == OkResult <==> !failed)
         && (o == Infrastructure <==> failed && transport)
         && (o == ErrorResult <==> failed && !transport)
  }

  /** One attempt per call, in order, numbered 1, 2, ... within each tool; outcomes as the results tell. */
  ghost predicate ReadsCalls(msgs: seq<Message>, attempts: seq<Attempt>) {
    var calls := Issued(msgs);
    && |attempts| == |calls|
    && (forall k :: 0 <= k < |calls| ==>
          && attempts[k].intentId == calls[k].name && attempts[k].args == calls[k].args
          && attempts[k].seqNo == 1 + |set j: nat | j < k && calls[j].name == calls[k].name|)
    && (Addressable(CallIds(calls)) ==>
          forall k :: 0 <= k < |calls| ==> ReadsOutcome(msgs, calls[k].id, attempts[k].outcome))
  }

  lemma {:induction false} CallsConcat(a: seq<Event>, b: seq<Event>)
    ensures Calls(a + b) == Calls(a) + Calls(b)
  {
    if b == [] {
      assert a + b == a;
    } else {
      var front, e := b[..|b| - 1], Last(b);
      CallsConcat(a, front);
      assert a + b == (a + front) + [e];
      CallsSnoc(a + front, e);
      if e.Issue? {
        Associate(Calls(a), Calls(front), [e.call]);
      }
    }
  }

  lemma {:induction false} IssuedAreCalls(msgs: seq<Message>)
    ensures Calls(Events(msgs)) == Issued(msgs)
  {
    if msgs != [] {
      var n := |msgs| - 1;
      IssuedAreCalls(msgs[..n]);
      CallsConcat(Events(msgs[..n]), Issues(msgs[n].calls, n));
      CallsConcat(Events(msgs[..n]) + Issues(msgs[n].calls, n), Replies(msgs[n]));
      CallsOfIssues(msgs[n].calls, n);
      assert Calls(Replies(msgs[n])) == [];
    }
  }

  ghost function Namesakes(calls: seq<ToolCall>, name: string, n: nat): set<nat>
    requires n <= |calls|
  {
    set j: nat | j < n && calls[j].name == name
  }

  lemma {:induction false} NamesakesAreCounted(calls: seq<ToolCall>, name: string, n: nat)
    requires n <= |calls|
    ensures |Namesakes(calls, name, n)| == NameCount(calls, name, n)
  {
    if n > 0 {
      NamesakesAreCounted(calls, name, n - 1);
      assert Namesakes(calls, name, n) ==
             Namesakes(calls, name, n - 1) + if calls[n - 1].name == name then {n - 1} else {};
    }
  }

  /** The outcome the last reply to this id carries. */
  function LastReply(events: seq<Event>, id: string): Option<AttemptOutcome> {
    if events == [] then None
    else if Last(events).Reply? && Last(events).id == id then Some(Last(events).outcome)
    else LastReply(events[..|events| - 1], id)
  }

  lemma {:induction false} RepliedIsResolved(events: seq<Event>, id: string)
    requires Play(events).Some?
    ensures LastReply(events, id).Some? <==> id in Play(events).value.resolved
  {
    if events != [] {
      RepliedIsResolved(events[..|events| - 1], id);
    }
  }

  ghost predicate FollowsReplies(events: seq<Event>, attempts: seq<Attempt>, ids: seq<string>) {
    && |attempts| == |ids|
    && forall k :: 0 <= k < |ids| ==>
         attempts[k].outcome == var r := LastReply(events, ids[k]); if r.Some? then r.value else Unknown
  }

  lemma {:induction false} OutcomesFollowReplies(events: seq<Event>)
    requires Play(events).Some? && Addressable(CallIds(Calls(events))) && RepliesKnown(events)
    ensures FollowsReplies(events, Play(events).value.attempts, CallIds(Calls(events)))
  {
    if events != [] {
      var front, e := events[..|events| - 1], Last(events);
      if e.Issue? {
        AddressablePrefix(CallIds(Calls(front)), e.call.id, CallIds(Calls(events)));
      }
      OutcomesFollowReplies(front);
      PlayTracks(front);
      NextOutcome(front, e);
      assert events == front + [e];
    }
  }

  lemma OutcomeAfterIssue(front: seq<Event>, e: Event, attempts: seq<Attempt>, a: Attempt, ids: seq<string>)
    requires FollowsReplies(front, attempts, ids)
    requires e.Issue? && LastReply(front, e.call.id).None? && a.outcome == Unknown
    ensures FollowsReplies(front + [e], attempts + [a], ids + [e.call.id])
  {
    assert (front + [e])[..|front|] == front;
    assert forall id :: LastReply(front + [e], id) == LastReply(front, id);
  }

  lemma OutcomeAfterReply(front: seq<Event>, e: Event, attempts: seq<Attempt>, ids: seq<string>, k: nat)
    requires FollowsReplies(front, attempts, ids) && NoDup(ids)
    requires e.Reply? && k < |ids| && ids[k] == e.id
    ensures FollowsReplies(front + [e], attempts[k := attempts[k].(outcome := e.outcome)], ids)
  {
    assert (front + [e])[..|front|] == front;
    assert forall id :: LastReply(front + [e], id) == if id == e.id then Some(e.outcome) else LastReply(front, id);
  }

  lemma {:induction false} NextOutcome(front: seq<Event>, e: Event)
    requires Play(front).Some? && Step(Play(front).value, e).Some?
    requires Tracks(Play(front).value, Calls(front), IssuedAt(front))
    requires Addressable(CallIds(Calls(front))) && (e.Issue? ==> e.call.id !in CallIds(Calls(front)))
    requires FollowsReplies(front, Play(front).value.attempts, CallIds(Calls(front)))
    ensures FollowsReplies(front + [e], Step(Play(front).value, e).value.attempts, CallIds(Calls(front + [e])))
  {
    var s, ids := Play(front).value, CallIds(Calls(front));
    CallsSnoc(front, e);
    if e.Issue? {
      RepliedIsResolved(front, e.call.id);
      assert CallIds(Calls(front) + [e.call]) == ids + [e.call.id];
      OutcomeAfterIssue(front, e, s.attempts, Last(IssueCall(s, e.call, e.at).attempts), ids);
    } else {
      assert e.id in ids;
      var k :| 0 <= k < |ids| && ids[k] == e.id;
      assert s.byCall[ids[k]].index == k;
      OutcomeAfterReply(front, e, s.attempts, ids, k);
    }
  }

  /** A reply among the events of messages is a result message. */
  ghost predicate RepliesAre(msgs: seq<Message>, id: string) {
    && (LastReply(Events(msgs), id).None? <==> !HasResult(msgs, id))
    && forall i :: LastResult(msgs, id, i) ==> LastReply(Events(msgs), id) == Some(ResultOutcome(msgs[i]))
  }

  lemma {:induction false} RepliesAreResults(msgs: seq<Message>, id: string)
    requires id != ""
    ensures RepliesAre(msgs, id)
  {
    if msgs != [] {
      var front, m := msgs[..|msgs| - 1], Last(msgs);
      RepliesAreResults(front, id);
      NextReply(front, m, id);
      FrontAndLast(msgs);
    }
  }

  lemma {:induction false} NextReply(front: seq<Message>, m: Message, id: string)
    requires id != "" && RepliesAre(front, id)
    ensures RepliesAre(front + [m], id)
  {
    var msgs := front + [m];
    SameInFront(front, m, id);
    LastReplyIn(front, m, id);
    forall i | LastResult(msgs, id, i)
      ensures LastReply(Events(msgs), id) == Some(ResultOutcome(msgs[i]))
    {
      if i < |front| {
        assert msgs[i] == front[i] && msgs[|front|] == m;
        assert forall j :: 0 <= j < |front| ==> msgs[j] == front[j];
        assert LastResult(front, id, i);
      }
    }
  }

  lemma {:induction false} LastReplyIn(front: seq<Message>, m: Message, id: string)
    requires id != ""
    ensures LastReply(Events(front + [m]), id) ==
            if m.resultFor == id then Some(ResultOutcome(m)) else LastReply(Events(front), id)
  {
    var asked := Events(front) + Issues(m.calls, |front|);
    IssuesAreNoReplies(Events(front), m.calls, |front|, id);
    EventsSnoc(front, m);
    if m.resultFor == "" {
      AppendNothing(asked, asked);
    } else {
      LastReplySnoc(asked, Reply(m.resultFor, ResultOutcome(m)), id);
    }
  }

  lemma LastReplySnoc(events: seq<Event>, e: Event, id: string)
    ensures LastReply(events + [e], id) == if e.Reply? && e.id == id then Some(e.outcome) else LastReply(events, id)
  {
    assert (events + [e])[..|events|] == events;
  }

  lemma {:induction false} IssuesAreNoReplies(events: seq<Event>, calls: seq<ToolCall>, at: nat, id: string)
    ensures LastReply(events + Issues(calls, at), id) == LastReply(events, id)
  {
    if calls == [] {
      AppendNothing(events, events);
    } else {
      var front := calls[..|calls| - 1];
      IssuesAreNoReplies(events, front, at, id);
      var all := events + Issues(calls, at);
      assert all[..|all| - 1] == events + Issues(front, at) && Last(all) == Issue(Last(calls), at);
    }
  }

  lemma CallsAreAttempts(msgs: seq<Message>)
    requires Play(Events(msgs)).Some?
    ensures ReadsCalls(msgs, Play(Events(msgs)).value.attempts)
  {
    var calls, attempts := Issued(msgs), Play(Events(msgs)).value.attempts;
    IssuedAreCalls(msgs);
    OneAttemptPerCall(Events(msgs));
    forall k | 0 <= k < |calls|
      ensures attempts[k].seqNo == 1 + |set j: nat | j < k && calls[j].name == calls[k].name|
    {
      NamesakesAreCounted(calls, calls[k].name, k);
      assert Namesakes(calls, calls[k].name, k) == set j: nat | j < k && calls[j].name == calls[k].name;
    }
    if Addressable(CallIds(calls)) {
      EventsAreKnown(msgs);
      OutcomesFollowReplies(Events(msgs));
      forall k | 0 <= k < |calls|
        ensures ReadsOutcome(msgs, calls[k].id, attempts[k].outcome)
      {
        assert CallIds(calls)[k] == calls[k].id;
        OutcomeIsRead(msgs, calls[k].id, attempts[k].outcome);
      }
    }
  }

  lemma {:induction false} OutcomeIsRead(msgs: seq<Message>, id: string, o: AttemptOutcome)
    requires id != "" && o == var r := LastReply(Events(msgs), id); if r.Some? then r.value else Unknown
    ensures ReadsOutcome(msgs, id, o)
  {
    RepliesAreResults(msgs, id);
    if HasResult(msgs, id) {
      LastOfResults(msgs, id);
    }
  }

  lemma {:induction false} LastOfResults(msgs: seq<Message>, id: string)
    requires HasResult(msgs, id)
    ensures exists i :: LastResult(msgs, id, i)
  {
    var n := |msgs| - 1;
    if msgs[n].resultFor == id {
      assert LastResult(msgs, id, n);
    } else {
      var front := msgs[..n];
      var k :| 0 <= k < |msgs| && msgs[k].resultFor == id;
      assert front[k].resultFor == id;
      LastOfResults(front, id);
      var i :| LastResult(front, id, i);
      assert LastResult(msgs, id, i);
    }
  }
}
