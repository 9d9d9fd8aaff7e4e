/** `LoadMCPMarkTrajectory` past the JSON decoding: rebuild the attempt sequence from a run's messages. */
module Trajectory {
  import opened Wrappers
  import opened Seqs
  import opened Intents

  /** One issued call; `args` is its normalised argument fingerprint. */
  datatype ToolCall = ToolCall(id: string, name: string, args: string)

  /** One message: the calls it issues, and the call it is a result for (empty when it is none). */
  datatype Message = Message(
    calls: seq<ToolCall>, resultFor: string, isError: Option<bool>, contentIsError: Option<bool>, errorType: string)

  const TRANSPORT_ERRORS: set<string> := {"transport", "network", "connection", "timeout"}

  /** `classifyResultOutcome`; `errorType` is already trimmed and lower-cased. */
  function ResultOutcome(m: Message): (o: AttemptOutcome)
    ensures o != Unknown
  {
    var flagged := m.isError == Some(true);
    var isErr := flagged || (m.contentIsError == Some(true));
    if !isErr then OkResult
    else if m.errorType in TRANSPORT_ERRORS then Infrastructure
    else ErrorResult
  }

  // ---- messages as events ----

  /** What the loop over messages sees: a call issued by message `at`, or a result. */
  datatype Event = Issue(call: ToolCall, at: nat) | Reply(id: string, outcome: AttemptOutcome)

  function Issues(calls: seq<ToolCall>, at: nat): seq<Event> {
    Map(calls, (c: ToolCall) => Issue(c, at))
  }

  function Replies(m: Message): seq<Event> {
    if m.resultFor == "" then [] else [Reply(m.resultFor, ResultOutcome(m))]
  }

  /** A message's calls come before its result. */
  function Events(msgs: seq<Message>): seq<Event> {
    if msgs == [] then []
    else
      var n := |msgs| - 1;
      Events(msgs[..n]) + Issues(msgs[n].calls, n) + Replies(msgs[n])
  }

  // ---- the loader's state ----

  datatype Pending = Pending(index: nat, issuedAt: nat)

  datatype State = State(
    attempts: seq<Attempt>,
    byCall: map<string, Pending>,
    seqByIntent: map<string, nat>,
    resolved: set<string>,
    lastIssuedAt: int)

  const START := State([], map[], map[], {}, -1)

  ghost predicate Sound(s: State) {
    forall id :: id in s.byCall ==> s.byCall[id].index < |s.attempts|
  }

  function NextSeq(s: State, name: string): nat {
    (if name in s.seqByIntent then s.seqByIntent[name] else 0) + 1
  }

  function IssueCall(s: State, c: ToolCall, at: nat): State {
    State(
      s.attempts + [Attempt(c.name, NextSeq(s, c.name), Unknown, c.args)],
      if c.id != "" then s.byCall[c.id := Pending(|s.attempts|, at)] else s.byCall,
      s.seqByIntent[c.name := NextSeq(s, c.name)],
      s.resolved,
      at)
  }

  function Resolve(s: State, id: string, outcome: AttemptOutcome): State
    requires id in s.byCall && s.byCall[id].index < |s.attempts|
  {
    var k := s.byCall[id].index;
    s.(attempts := s.attempts[k := s.attempts[k].(outcome := outcome)], resolved := s.resolved + {id})
  }

  /** One event, or nothing when it is refused: a nameless call, or a result for a call never issued. */
  function Step(s: State, e: Event): (r: Option<State>)
    requires Sound(s)
    ensures r.Some? ==> Sound(r.value)
  {
    match e
    case Issue(c, at) => if c.name == "" then None else Some(IssueCall(s, c, at))
    case Reply(id, outcome) => if id !in s.byCall then None else Some(Resolve(s, id, outcome))
  }

  function Play(events: seq<Event>): (r: Option<State>)
    ensures r.Some? ==> Sound(r.value)
  {
    if events == [] then Some(START)
    else
      var before := Play(events[..|events| - 1]);
      if before.None? then None else Step(before.value, Last(events))
  }

  ghost predicate Dropped(s: State) {
    exists id :: id in s.byCall && id !in s.resolved && s.byCall[id].issuedAt != s.lastIssuedAt
  }

  ghost predicate Truncated(s: State) {
    exists id :: id in s.byCall && id !in s.resolved && s.byCall[id].issuedAt == s.lastIssuedAt
  }

  datatype LoadError = NamelessCall | UnknownResult | DroppedResults

  datatype Loaded = Loaded(attempts: seq<Attempt>, truncated: bool)

  /** Why an event is refused, when it is. */
  function WhyRefused(e: Event): LoadError {
    if e.Issue? then NamelessCall else UnknownResult
  }

  /** The reason given by the first refused event. */
  function Refusal(events: seq<Event>): Option<LoadError> {
    if events == [] then None
    else
      var front := events[..|events| - 1];
      if Refusal(front).Some? then Refusal(front)
      else if Play(front).Some? && Step(Play(front).value, Last(events)).None? then Some(WhyRefused(Last(events)))
      else None
  }

  /** What the loader must return for the events of a trajectory. */
  ghost predicate LoadsAs(events: seq<Event>, r: Result<Loaded, LoadError>) {
    var s := Play(events);
    if s.None? then Refusal(events).Some? && r == Err(Refusal(events).value)
    else if Dropped(s.value) then r == Err(DroppedResults)
    else r == Ok(Loaded(s.value.attempts, Truncated(s.value)))
  }

  lemma {:induction false} RefusedIffNoState(events: seq<Event>)
    ensures Refusal(events).Some? <==> Play(events).None?
  {
    if events == [] {
    } else {
      RefusedIffNoState(events[..|events| - 1]);
    }
  }

  lemma {:induction false} RefusedStaysRefused(events: seq<Event>, more: seq<Event>)
    requires Refusal(events).Some?
    ensures Refusal(events + more) == Refusal(events)
  {
    if more == [] {
      assert events + more == events;
    } else {
      var front := more[..|more| - 1];
      RefusedStaysRefused(events, front);
      assert (events + more)[..|events + more| - 1] == events + front;
    }
  }

  lemma PlaySnoc(events: seq<Event>, e: Event)
    ensures Play(events + [e]) == if Play(events).None? then None else Step(Play(events).value, e)
    ensures Play(events).Some? && Step(Play(events).value, e).None? ==> Refusal(events + [e]) == Some(WhyRefused(e))
  {
    RefusedIffNoState(events);
    assert (events + [e])[..|events|] == events;
  }

  lemma {:induction false} EventsPrefix(msgs: seq<Message>, k: nat)
    requires k <= |msgs|
    ensures exists more :: Events(msgs) == Events(msgs[..k]) + more
    decreases |msgs| - k
  {
    if k == |msgs| {
      assert msgs[..k] == msgs;
      assert Events(msgs) == Events(msgs[..k]) + [];
    } else {
      EventsPrefix(msgs, k + 1);
      var more :| Events(msgs) == Events(msgs[..k + 1]) + more;
      assert msgs[..k + 1][..k] == msgs[..k];
      var here := Issues(msgs[k].calls, k) + Replies(msgs[k]);
      Associate(Events(msgs[..k]), Issues(msgs[k].calls, k), Replies(msgs[k]));
      Associate(Events(msgs[..k]), here, more);
    }
  }

  /** A refusal part-way through the messages is a refusal of the trajectory. */
  lemma RefusedPartWay(msgs: seq<Message>, k: nat, done: nat)
    requires k < |msgs| && done <= |msgs[k].calls|
    requires Refusal(Events(msgs[..k]) + Issues(msgs[k].calls, k)[..done]).Some?
    ensures Refusal(Events(msgs)) == Refusal(Events(msgs[..k]) + Issues(msgs[k].calls, k)[..done])
  {
    var all := Issues(msgs[k].calls, k);
    EventsPrefix(msgs, k + 1);
    var more :| Events(msgs) == Events(msgs[..k + 1]) + more;
    assert msgs[..k + 1][..k] == msgs[..k];
    SplitPartWay(Events(msgs[..k]), all, done, Replies(msgs[k]), more);
    RefusedStaysRefused(Events(msgs[..k]) + all[..done], all[done..] + Replies(msgs[k]) + more);
  }

  lemma SplitPartWay(before: seq<Event>, all: seq<Event>, done: nat, reply: seq<Event>, more: seq<Event>)
    requires done <= |all|
    ensures before + all + reply + more == (before + all[..done]) + (all[done..] + reply + more)
  {
  }

  lemma RefusedAt(msgs: seq<Message>, k: nat)
    requires k < |msgs| && Refusal(Events(msgs[..k + 1])).Some?
    ensures Refusal(Events(msgs)) == Refusal(Events(msgs[..k + 1]))
  {
    EventsPrefix(msgs, k + 1);
    var more :| Events(msgs) == Events(msgs[..k + 1]) + more;
    RefusedStaysRefused(Events(msgs[..k + 1]), more);
  }

  method LoadTrajectory(msgs: seq<Message>) returns (r: Result<Loaded, LoadError>)
    ensures LoadsAs(Events(msgs), r)
  {
    var s := START;
    for mi := 0 to |msgs|
      invariant Sound(s) && Play(Events(msgs[..mi])) == Some(s)
    {
      var msg := msgs[mi];
      assert msgs[..mi + 1][..mi] == msgs[..mi];
      var issued := IssueAll(s, msgs, mi);
      if issued.None? {
        RefusedIffNoState(Events(msgs));
        return Err(NamelessCall);
      }
      s := issued.value;
      if msg.resultFor != "" {
        PlaySnoc(Events(msgs[..mi]) + Issues(msg.calls, mi), Reply(msg.resultFor, ResultOutcome(msg)));
        if msg.resultFor !in s.byCall {
          RefusedAt(msgs, mi);
          RefusedIffNoState(Events(msgs));
          return Err(UnknownResult);
        }
        s := Resolve(s, msg.resultFor, ResultOutcome(msg));
      } else {
        assert Events(msgs[..mi + 1]) == Events(msgs[..mi]) + Issues(msg.calls, mi);
      }
    }
    assert msgs[..|msgs|] == msgs;
    r := Conclude(s);
  }

  /** The inner loop: one attempt per call of message `mi`. */
  method IssueAll(s0: State, msgs: seq<Message>, mi: nat) returns (r: Option<State>)
    requires mi < |msgs| && Sound(s0) && Play(Events(msgs[..mi])) == Some(s0)
    ensures r.None? ==> Refusal(Events(msgs)) == Some(NamelessCall)
    ensures r.Some? ==> Sound(r.value) && Play(Events(msgs[..mi]) + Issues(msgs[mi].calls, mi)) == r
  {
    var s := s0;
    ghost var before, all := Events(msgs[..mi]), Issues(msgs[mi].calls, mi);
    r := None;
    AppendNothing(before, all);
    for k := 0 to |msgs[mi].calls|
      invariant Sound(s) && Play(before + all[..k]) == Some(s)
    {
      var call := msgs[mi].calls[k];
      AppendTake(before, all, k);
      PlaySnoc(before + all[..k], all[k]);
      if call.name == "" {
        RefusedPartWay(msgs, mi, k + 1);
        return;
      }
      s := IssueCall(s, call, mi);
    }
    r := Some(s);
  }

  /** The closing loop over the issued calls, in whatever order the map yields them. */
  method Conclude(s: State) returns (r: Result<Loaded, LoadError>)
    ensures Dropped(s) ==> r == Err(DroppedResults)
    ensures !Dropped(s) ==> r == Ok(Loaded(s.attempts, Truncated(s)))
  {
    var truncated := false;
    var left := s.byCall.Keys;
    while left != {}
      invariant left <= s.byCall.Keys
      invariant forall id :: id in s.byCall && id !in left && id !in s.resolved ==>
                  s.byCall[id].issuedAt == s.lastIssuedAt
      invariant truncated <==> exists id :: id in s.byCall && id !in left && id !in s.resolved
      decreases left
    {
      var id :| id in left;
      left := left - {id};
      if id in s.resolved {
        continue;
      }
      if s.byCall[id].issuedAt == s.lastIssuedAt {
        truncated := true;
        continue;
      }
      return Err(DroppedResults);
    }
    return Ok(Loaded(s.attempts, truncated));
  }

  // ---- one attempt per call ----

  /** The calls issued, in order. */
  function Calls(events: seq<Event>): seq<ToolCall> {
    if events == [] then []
    else
      var front := Calls(events[..|events| - 1]);
      if Last(events).Issue? then front + [Last(events).call] else front
  }

  /** How many of the first `n` calls go to this tool. */
  function NameCount(calls: seq<ToolCall>, name: string, n: nat): nat
    requires n <= |calls|
  {
    if n == 0 then 0 else NameCount(calls, name, n - 1) + (if calls[n - 1].name == name then 1 else 0)
  }

  lemma {:induction false} NameCountPrefix(calls: seq<ToolCall>, more: seq<ToolCall>, name: string, n: nat)
    requires n <= |calls|
    ensures NameCount(calls + more, name, n) == NameCount(calls, name, n)
  {
    if n > 0 {
      NameCountPrefix(calls, more, name, n - 1);
    }
  }

  /** The attempts are the calls, numbered 1, 2, ... within each intent. */
  ghost predicate Numbered(attempts: seq<Attempt>, calls: seq<ToolCall>) {
    && |attempts| == |calls|
    && forall k :: 0 <= k < |calls| ==>
         && attempts[k].intentId == calls[k].name
         && attempts[k].args == calls[k].args
         && attempts[k].seqNo == NameCount(calls, calls[k].name, k) + 1
  }

  lemma {:induction false} NextSeqCounts(events: seq<Event>, name: string)
    requires Play(events).Some?
    ensures NextSeq(Play(events).value, name) == NameCount(Calls(events), name, |Calls(events)|) + 1
  {
    if events != [] {
      var front, e := events[..|events| - 1], Last(events);
      NextSeqCounts(front, name);
      if e.Issue? {
        NameCountPrefix(Calls(front), [e.call], name, |Calls(front)|);
      }
    }
  }

  /** One attempt per call, in order. */
  lemma {:induction false} OneAttemptPerCall(events: seq<Event>)
    requires Play(events).Some?
    ensures Numbered(Play(events).value.attempts, Calls(events))
  {
    if events != [] {
      var front, e := events[..|events| - 1], Last(events);
      OneAttemptPerCall(front);
      if e.Issue? {
        NextSeqCounts(front, e.call.name);
        NumberedSnoc(Play(front).value.attempts, Calls(front), e.call, NextSeq(Play(front).value, e.call.name));
      }
    }
  }

  lemma NumberedSnoc(attempts: seq<Attempt>, calls: seq<ToolCall>, c: ToolCall, n: nat)
    requires Numbered(attempts, calls) && n == NameCount(calls, c.name, |calls|) + 1
    ensures Numbered(attempts + [Attempt(c.name, n, Unknown, c.args)], calls + [c])
  {
    forall k | 0 <= k <= |calls|
      ensures NameCount(calls + [c], (calls + [c])[k].name, k) == NameCount(calls, (calls + [c])[k].name, k)
    {
      NameCountPrefix(calls, [c], (calls + [c])[k].name, k);
    }
  }

  // ---- which attempts are left unknown ----

  function CallIds(calls: seq<ToolCall>): seq<string> {
    Map(calls, (c: ToolCall) => c.id)
  }

  /** The message that issued each call, in order. */
  function IssuedAt(events: seq<Event>): seq<nat> {
    if events == [] then []
    else
      var front := IssuedAt(events[..|events| - 1]);
      if Last(events).Issue? then front + [Last(events).at] else front
  }

  /** Every call has an id, and no two the same. */
  ghost predicate Addressable(ids: seq<string>) {
    NoDup(ids) && "" !in ids
  }

  /** With addressable calls the state knows every call under its own id. */
  ghost predicate Tracks(s: State, calls: seq<ToolCall>, issuedAt: seq<nat>) {
    && |s.attempts| == |calls| == |issuedAt|
    && (forall id :: id in s.byCall <==> id in CallIds(calls))
    && (forall k :: 0 <= k < |calls| ==>
          CallIds(calls)[k] in s.byCall && s.byCall[CallIds(calls)[k]] == Pending(k, issuedAt[k]))
    && (forall k :: 0 <= k < |calls| ==> (s.attempts[k].outcome == Unknown <==> CallIds(calls)[k] !in s.resolved))
    && s.resolved <= s.byCall.Keys
    && (|calls| > 0 ==> s.lastIssuedAt == Last(issuedAt))
  }

  ghost predicate RepliesKnown(events: seq<Event>) {
    forall i :: 0 <= i < |events| && events[i].Reply? ==> events[i].outcome != Unknown
  }

  lemma {:induction false} PlayTracks(events: seq<Event>)
    requires Play(events).Some? && Addressable(CallIds(Calls(events))) && RepliesKnown(events)
    ensures Tracks(Play(events).value, Calls(events), IssuedAt(events))
  {
    if events != [] {
      var front, e := events[..|events| - 1], Last(events);
      var s, calls, at := Play(front).value, Calls(front), IssuedAt(front);
      if e.Issue? {
        AddressablePrefix(CallIds(calls), e.call.id, CallIds(Calls(events)));
        PlayTracks(front);
        IssueTracks(s, calls, at, e.call, e.at);
      } else {
        PlayTracks(front);
        ReplyTracks(s, calls, at, e.id, e.outcome);
      }
    }
  }

  lemma AddressablePrefix(ids: seq<string>, id: string, all: seq<string>)
    requires Addressable(all) && all == ids + [id]
    ensures Addressable(ids) && id !in ids && id != ""
  {
    assert all[|ids|] == id;
    assert forall i :: 0 <= i < |ids| ==> all[i] == ids[i];
  }

  lemma IssueTracks(s: State, calls: seq<ToolCall>, at: seq<nat>, c: ToolCall, mi: nat)
    requires Tracks(s, calls, at) && c.id !in CallIds(calls) && c.id != ""
    ensures Tracks(IssueCall(s, c, mi), calls + [c], at + [mi])
  {
    var ids, more := CallIds(calls), CallIds(calls + [c]);
    assert more == ids + [c.id];
    assert c.id !in s.byCall;
  }

  lemma ReplyTracks(s: State, calls: seq<ToolCall>, at: seq<nat>, id: string, outcome: AttemptOutcome)
    requires Tracks(s, calls, at) && Sound(s) && id in s.byCall && outcome != Unknown
    ensures Tracks(Resolve(s, id, outcome), calls, at)
  {
    var ids := CallIds(calls);
    var k :| 0 <= k < |ids| && ids[k] == id;
    assert s.byCall[ids[k]].index == k;
    forall j | 0 <= j < |ids| && ids[j] == id
      ensures j == k
    {
      assert s.byCall[ids[j]].index == j;
    }
  }

  lemma {:induction false} EventsAreKnown(msgs: seq<Message>)
    ensures RepliesKnown(Events(msgs))
  {
    if msgs != [] {
      EventsAreKnown(msgs[..|msgs| - 1]);
    }
  }

  /**
   * With addressable calls, a loaded trajectory says exactly what is missing: it is marked truncated when and only
   * when an attempt is left unknown, and every unknown attempt was issued by the last message that issued any.
   */
  lemma TruncationIsExact(msgs: seq<Message>, r: Result<Loaded, LoadError>)
    requires LoadsAs(Events(msgs), r) && r.Ok?
    requires Addressable(CallIds(Calls(Events(msgs))))
    ensures |r.value.attempts| == |IssuedAt(Events(msgs))|
    ensures r.value.truncated <==> exists k :: 0 <= k < |r.value.attempts| && r.value.attempts[k].outcome == Unknown
    ensures forall k :: 0 <= k < |r.value.attempts| && r.value.attempts[k].outcome == Unknown ==>
              IssuedAt(Events(msgs))[k] == Last(IssuedAt(Events(msgs)))
  {
    var events := Events(msgs);
    EventsAreKnown(msgs);
    PlayTracks(events);
    var s, ids := Play(events).value, CallIds(Calls(events));
    forall k | 0 <= k < |ids| && s.attempts[k].outcome == Unknown
      ensures Truncated(s) && IssuedAt(events)[k] == s.lastIssuedAt
    {
      assert ids[k] in s.byCall && ids[k] !in s.resolved;
    }
    if Truncated(s) {
      var id :| id in s.byCall && id !in s.resolved && s.byCall[id].issuedAt == s.lastIssuedAt;
      var k :| 0 <= k < |ids| && ids[k] == id;
      assert s.attempts[k].outcome == Unknown;
    }
  }

  // ---- calls that cannot be told apart ----

  /** Everything asked for in one message, each id then answered in a message of its own. */
  function AskAll(ids: seq<string>): Message {
    Message(Map(ids, (id: string) => ToolCall(id, "tool", "")), "", None, None, "")
  }

  function Answers(ids: seq<string>): seq<Message> {
    Map(ids, (id: string) => Message([], id, None, None, ""))
  }

  function Conversation(ids: seq<string>): seq<Message> {
    [AskAll(ids)] + Answers(ids)
  }

  /** Call `j` has no id of its own: it is empty, or a later call takes it over. */
  ghost predicate Unaddressed(ids: seq<string>, j: nat) {
    j < |ids| && (ids[j] == "" || exists i :: j < i < |ids| && ids[i] == ids[j])
  }

  /** After the calls are issued, each id points at the last call that used it. */
  ghost predicate Asked(s: State, ids: seq<string>, n: nat)
    requires n <= |ids|
  {
    && |s.attempts| == n
    && (forall k :: 0 <= k < n ==> s.attempts[k].outcome == Unknown)
    && (forall id :: id in s.byCall ==> s.byCall[id].index < n && ids[s.byCall[id].index] == id && id != "")
    && (forall k :: 0 <= k < n && ids[k] != "" ==> ids[k] in s.byCall && s.byCall[ids[k]].index >= k)
    && s.resolved == {}
  }

  function Ask(id: string): ToolCall {
    ToolCall(id, "tool", "")
  }

  lemma AskStep(s: State, ids: seq<string>, n: nat)
    requires n < |ids| && Asked(s, ids, n)
    ensures Asked(IssueCall(s, Ask(ids[n]), 0), ids, n + 1)
  {
  }

  lemma {:induction false} AskingPlays(ids: seq<string>, n: nat)
    requires n <= |ids|
    ensures Play(Issues(AskAll(ids).calls, 0)[..n]).Some?
    ensures Asked(Play(Issues(AskAll(ids).calls, 0)[..n]).value, ids, n)
  {
    if n > 0 {
      AskingPlays(ids, n - 1);
      var all := Issues(AskAll(ids).calls, 0);
      assert all[..n] == all[..n - 1] + [Issue(Ask(ids[n - 1]), 0)];
      PlaySnoc(all[..n - 1], Issue(Ask(ids[n - 1]), 0));
      AskStep(Play(all[..n - 1]).value, ids, n - 1);
    }
  }

  /** The state once every call is issued and none answered. */
  lemma AllAsked(ids: seq<string>) returns (asked: State)
    ensures Play(Issues(AskAll(ids).calls, 0)) == Some(asked)
    ensures Asked(asked, ids, |ids|) && Sound(asked)
  {
    var all := Issues(AskAll(ids).calls, 0);
    AskingPlays(ids, |ids|);
    assert all[..|ids|] == all;
    asked := Play(all).value;
  }

  function AnswerEvents(ids: seq<string>, n: nat): seq<Event>
    requires n <= |ids|
  {
    if n == 0 then []
    else if ids[n - 1] == "" then AnswerEvents(ids, n - 1)
    else AnswerEvents(ids, n - 1) + [Reply(ids[n - 1], OkResult)]
  }

  /** Answering never reaches a call no id leads to, and leaves every id answered so far resolved. */
  ghost predicate Answered(s: State, asked: State, ids: seq<string>, j: nat, n: nat)
    requires n <= |ids|
  {
    && Sound(s)
    && s.byCall == asked.byCall && |s.attempts| == |ids| && j < |ids|
    && s.attempts[j].outcome == Unknown
    && (forall k :: 0 <= k < n && ids[k] != "" ==> ids[k] in s.resolved)
  }

  lemma AnswerStep(s: State, asked: State, ids: seq<string>, j: nat, n: nat)
    requires n < |ids| && Answered(s, asked, ids, j, n) && Unreached(asked, ids, j) && ids[n] != ""
    ensures ids[n] in s.byCall && Answered(Resolve(s, ids[n], OkResult), asked, ids, j, n + 1)
  {
  }

  lemma {:induction false} AnsweringPlays(asked: State, ids: seq<string>, j: nat, n: nat) returns (s: State)
    requires Play(Issues(AskAll(ids).calls, 0)) == Some(asked) && Sound(asked)
    requires Asked(asked, ids, |ids|) && Unreached(asked, ids, j) && j < |ids| && n <= |ids|
    ensures Play(Issues(AskAll(ids).calls, 0) + AnswerEvents(ids, n)) == Some(s)
    ensures Answered(s, asked, ids, j, n)
  {
    var all := Issues(AskAll(ids).calls, 0);
    if n == 0 {
      AppendNothing(all, []);
      s := asked;
    } else {
      var before := AnsweringPlays(asked, ids, j, n - 1);
      s := OneAnswer(before, asked, ids, j, n - 1, all);
    }
  }

  lemma OneAnswer(s: State, asked: State, ids: seq<string>, j: nat, n: nat, all: seq<Event>) returns (s': State)
    requires n < |ids| && Answered(s, asked, ids, j, n) && Unreached(asked, ids, j)
    requires Play(all + AnswerEvents(ids, n)) == Some(s)
    ensures Play(all + AnswerEvents(ids, n + 1)) == Some(s')
    ensures Answered(s', asked, ids, j, n + 1)
  {
    s' := s;
    if ids[n] != "" {
      AnswerStep(s, asked, ids, j, n);
      AnswerPlays(all, AnswerEvents(ids, n), ids[n], s);
      s' := Resolve(s, ids[n], OkResult);
    }
  }

  lemma AnswerPlays(all: seq<Event>, answers: seq<Event>, id: string, s: State)
    requires Play(all + answers) == Some(s) && Sound(s) && id in s.byCall
    ensures Play(all + (answers + [Reply(id, OkResult)])) == Some(Resolve(s, id, OkResult))
  {
    Associate(all, answers, [Reply(id, OkResult)]);
    PlaySnoc(all + answers, Reply(id, OkResult));
  }

  /** No id leads to call `j`. */
  ghost predicate Unreached(asked: State, ids: seq<string>, j: nat) {
    && (forall id :: id in asked.byCall ==> asked.byCall[id].index != j)
    && (forall k :: 0 <= k < |ids| && ids[k] != "" ==> ids[k] in asked.byCall)
  }

  lemma UnaddressedIsUnreached(asked: State, ids: seq<string>, j: nat)
    requires Asked(asked, ids, |ids|) && Unaddressed(ids, j)
    ensures Unreached(asked, ids, j)
  {
    if ids[j] != "" {
      var i :| j < i < |ids| && ids[i] == ids[j];
      assert asked.byCall[ids[i]].index >= i;
    }
  }

  lemma EventsSnoc(msgs: seq<Message>, m: Message)
    ensures Events(msgs + [m]) == Events(msgs) + Issues(m.calls, |msgs|) + Replies(m)
  {
    assert (msgs + [m])[..|msgs|] == msgs;
  }

  lemma {:induction false} ConversationEvents(ids: seq<string>, n: nat)
    requires n <= |ids|
    ensures Events([AskAll(ids)] + Answers(ids)[..n]) == Issues(AskAll(ids).calls, 0) + AnswerEvents(ids, n)
  {
    if n == 0 {
      AskOnly(ids);
    } else {
      ConversationEvents(ids, n - 1);
      OneMoreAnswer(ids, n - 1);
    }
  }

  lemma AskOnly(ids: seq<string>)
    ensures Events([AskAll(ids)] + Answers(ids)[..0]) == Issues(AskAll(ids).calls, 0) + AnswerEvents(ids, 0)
  {
    var ask := AskAll(ids);
    assert [ask] + Answers(ids)[..0] == [] + [ask];
    EventsSnoc([], ask);
    assert [] + Issues(ask.calls, 0) + [] == Issues(ask.calls, 0) + [];
  }

  lemma OneMoreAnswer(ids: seq<string>, n: nat)
    requires n < |ids|
    requires Events([AskAll(ids)] + Answers(ids)[..n]) == Issues(AskAll(ids).calls, 0) + AnswerEvents(ids, n)
    ensures Events([AskAll(ids)] + Answers(ids)[..n + 1]) == Issues(AskAll(ids).calls, 0) + AnswerEvents(ids, n + 1)
  {
    AppendTake([AskAll(ids)], Answers(ids), n);
    EventsOfAnswer([AskAll(ids)] + Answers(ids)[..n], ids[n]);
    if ids[n] != "" {
      Associate(Issues(AskAll(ids).calls, 0), AnswerEvents(ids, n), [Reply(ids[n], OkResult)]);
    }
  }

  lemma EventsOfAnswer(front: seq<Message>, id: string)
    ensures Events(front + [Message([], id, None, None, "")]) ==
            if id == "" then Events(front) else Events(front) + [Reply(id, OkResult)]
  {
    var m := Message([], id, None, None, "");
    EventsSnoc(front, m);
    assert Issues(m.calls, |front|) == [];
    assert Events(front) + [] == Events(front);
  }

  lemma {:induction false} AnswersIssueNothing(calls: seq<Event>, ids: seq<string>, n: nat)
    requires n <= |ids|
    ensures Calls(calls + AnswerEvents(ids, n)) == Calls(calls)
  {
    if n == 0 {
      assert calls + AnswerEvents(ids, 0) == calls;
    } else {
      AnswersIssueNothing(calls, ids, n - 1);
      if ids[n - 1] != "" {
        var before, e := calls + AnswerEvents(ids, n - 1), Reply(ids[n - 1], OkResult);
        Associate(calls, AnswerEvents(ids, n - 1), [e]);
        CallsSnoc(before, e);
      }
    }
  }

  lemma CallsSnoc(events: seq<Event>, e: Event)
    ensures Calls(events + [e]) == if e.Issue? then Calls(events) + [e.call] else Calls(events)
  {
    assert (events + [e])[..|events|] == events;
  }

  lemma {:induction false} CallsOfIssues(calls: seq<ToolCall>, at: nat)
    ensures Calls(Issues(calls, at)) == calls
  {
    if calls != [] {
      var front := calls[..|calls| - 1];
      CallsOfIssues(front, at);
      assert Issues(calls, at)[..|calls| - 1] == Issues(front, at);
      FrontAndLast(calls);
    }
  }

  /** The loader vouches for a trajectory: it loads it as complete. */
  ghost predicate LoadsComplete(msgs: seq<Message>) {
    var s := Play(Events(msgs));
    s.Some? && !Dropped(s.value) && !Truncated(s.value)
  }

  ghost predicate AllKnown(msgs: seq<Message>)
    requires Play(Events(msgs)).Some?
  {
    forall k :: 0 <= k < |Play(Events(msgs)).value.attempts| ==> Play(Events(msgs)).value.attempts[k].outcome != Unknown
  }

  /** A call without an id of its own can go unanswered in a trajectory the loader calls complete. */
  lemma UnaddressedGoesUnnoticed(ids: seq<string>, j: nat)
    requires Unaddressed(ids, j)
    ensures CallIds(Calls(Events(Conversation(ids)))) == ids
    ensures LoadsComplete(Conversation(ids)) && !AllKnown(Conversation(ids))
  {
    var all := Issues(AskAll(ids).calls, 0);
    assert Answers(ids)[..|ids|] == Answers(ids);
    ConversationEvents(ids, |ids|);
    AnswersIssueNothing(all, ids, |ids|);
    CallsOfIssues(AskAll(ids).calls, 0);
    var asked := AllAsked(ids);
    UnaddressedIsUnreached(asked, ids, j);
    var s := AnsweringPlays(asked, ids, j, |ids|);
    assert Play(Events(Conversation(ids))) == Some(s);
    forall id | id in s.byCall
      ensures id in s.resolved
    {
      var k := asked.byCall[id].index;
      assert ids[k] == id && id != "";
    }
  }

  /**
   * "Loaded as complete" means "nothing left unknown" for every trajectory that issues these call ids exactly when
   * the ids are non-empty and pairwise distinct.
   */
  lemma CompleteIsTrustworthyIffAddressable(ids: seq<string>)
    ensures Addressable(ids) <==>
            forall msgs :: CallIds(Calls(Events(msgs))) == ids && LoadsComplete(msgs) ==> AllKnown(msgs)
  {
    if Addressable(ids) {
      forall msgs | CallIds(Calls(Events(msgs))) == ids && LoadsComplete(msgs)
        ensures AllKnown(msgs)
      {
        TruncationIsExact(msgs, Ok(Loaded(Play(Events(msgs)).value.attempts, false)));
      }
    } else {
      var j := FindUnaddressed(ids);
      UnaddressedGoesUnnoticed(ids, j);
    }
  }

  lemma FindUnaddressed(ids: seq<string>) returns (j: nat)
    requires !Addressable(ids)
    ensures Unaddressed(ids, j)
  {
    if "" in ids {
      j :| 0 <= j < |ids| && ids[j] == "";
    } else {
      var p, q :| 0 <= p < q < |ids| && ids[p] == ids[q];
      j := p;
    }
  }
}
