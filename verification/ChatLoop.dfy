/**
  The assistant's tool loop (bfg2/bfg/core/agent_views.py, lines 553-630 and 632-741) against an
  arbitrary vendor, who may answer each transcript as it likes.  `Converse` is the loop; the
  claims over every vendor are that the model is asked at most `max_tool_rounds` times and that
  every assistant message is followed by exactly the results of its own tool calls.
 */
module ChatLoop {
  import opened Wrappers
  import opened StreamAssembly

  datatype Message =
    | Plain(role: string, content: string)
    | Assistant(content: string, calls: seq<Call>)
    | Tool(callId: string, content: string)

  /** What the vendor sends back; `NoChoice` when the response carries no choice. */
  datatype Reply = NoChoice | Answer(content: string, calls: seq<Call>)

  datatype ToolResult = Result(json: string) | Failure(error: string)

  /** How a capability's handler ends. */
  datatype Handled = Returned(json: string) | Raised(error: string)

  /** One entry of `tool_calls_made`; the capability is None for an API tool. */
  datatype Made = Made(capability: Option<string>, name: string, arguments: string, result: ToolResult)

  /**
    Which tools there are, who may use them, and what running one gives.  What a tool does may
    depend on every call made before it and on the results, so it may keep a state of its own.
   */
  datatype Tools = Tools(api: map<string, (seq<Made>, Call) -> string>, capabilityOf: map<string, string>,
                         capabilities: map<string, bool>, handler: (seq<Made>, string, Call) -> Handled,
                         shown: ToolResult -> string)

  /** One tool call: an API tool, an unknown one, one not permitted, or one that runs and may raise. */
  function Execute(tools: Tools, made: seq<Made>, c: Call): Made {
    if c.name in tools.api then Made(None, c.name, c.arguments, Result(tools.api[c.name](made, c)))
    else
      var id := if c.name in tools.capabilityOf then tools.capabilityOf[c.name] else "";
      var result :=
        if id !in tools.capabilities then Failure("Unknown capability for tool: " + c.name)
        else if !tools.capabilities[id] then Failure("Permission denied")
        else match tools.handler(made, id, c) case Returned(json) => Result(json) case Raised(error) => Failure(error);
      Made(Some(id), c.name, c.arguments, result)
  }

  /** The log entries of these calls, made one after the other. */
  function ExecuteAll(tools: Tools, made: seq<Made>, calls: seq<Call>): seq<Made>
    decreases |calls|
  {
    if calls == [] then []
    else
      var entry := Execute(tools, made, calls[0]);
      [entry] + ExecuteAll(tools, made + [entry], calls[1..])
  }

  function ToolMessages(tools: Tools, made: seq<Made>, calls: seq<Call>): seq<Message>
    decreases |calls|
  {
    if calls == [] then []
    else
      var entry := Execute(tools, made, calls[0]);
      [Tool(calls[0].id, tools.shown(entry.result))] + ToolMessages(tools, made + [entry], calls[1..])
  }

  /** The transcript, the calls made, the reply shown, and how often the model was asked. */
  datatype Talk = Talk(messages: seq<Message>, made: seq<Made>, reply: string, asked: nat)

  type Vendor = seq<Message> -> Reply

  /** A conversation that goes on after the model was asked n times. */
  function Asked(n: nat, talk: Talk): Talk {
    talk.(asked := n + talk.asked)
  }

  function Converse(vendor: Vendor, tools: Tools, messages: seq<Message>, made: seq<Made>, reply: string, rounds: nat)
    : Talk
    decreases rounds
  {
    if rounds == 0 then Talk(messages, made, reply, 0)
    else
      match vendor(messages)
      case NoChoice => Talk(messages, made, reply, 1)
      case Answer(content, calls) =>
        if content == "" && calls == [] then Talk(messages, made, reply, 1)
        else
          var said := messages + [Assistant(content, calls)];
          var shown := if content != "" then content else reply;
          if calls == [] then Talk(said, made, shown, 1)
          else
            Asked(1, Converse(vendor, tools, said + ToolMessages(tools, made, calls),
                              made + ExecuteAll(tools, made, calls), shown, rounds - 1))
  }

  lemma AskedTwice(m: nat, n: nat, talk: Talk)
    ensures Asked(m, Asked(n, talk)) == Asked(m + n, talk) && Asked(0, talk) == talk
  {
  }

  lemma Turn(vendor: Vendor, tools: Tools, messages: seq<Message>, made: seq<Made>, reply: string, rounds: nat)
    requires rounds > 0
    ensures var now := Converse(vendor, tools, messages, made, reply, rounds);
      match vendor(messages)
      case NoChoice => now == Talk(messages, made, reply, 1)
      case Answer(content, calls) =>
        var said, shown := messages + [Assistant(content, calls)], if content != "" then content else reply;
        if content == "" && calls == [] then now == Talk(messages, made, reply, 1)
        else if calls == [] then now == Talk(said, made, shown, 1)
        else now == Asked(1, Converse(vendor, tools, said + ToolMessages(tools, made, calls),
                                      made + ExecuteAll(tools, made, calls), shown, rounds - 1))
  {
  }

  lemma OutOfRounds(vendor: Vendor, tools: Tools, messages: seq<Message>, made: seq<Made>, reply: string, rounds: nat)
    requires rounds == 0
    ensures Converse(vendor, tools, messages, made, reply, rounds) == Talk(messages, made, reply, 0)
  {
  }

  method Chat(vendor: Vendor, tools: Tools, initial: seq<Message>, maxToolRounds: nat) returns (talk: Talk)
    ensures talk == Converse(vendor, tools, initial, [], "", maxToolRounds)
  {
    hide Execute, ExecuteAll, ToolMessages, Converse;
    var messages, made, reply, roundCount := initial, [], "", 0;
    ghost var whole := Converse(vendor, tools, initial, [], "", maxToolRounds);
    ghost var left := maxToolRounds;
    AskedTwice(0, 0, whole);
    while roundCount < maxToolRounds
      invariant 0 <= roundCount <= maxToolRounds
      invariant left == maxToolRounds - roundCount
      invariant whole == Asked(roundCount, Converse(vendor, tools, messages, made, reply, left))
    {
      var response := vendor(messages);
      Turn(vendor, tools, messages, made, reply, left);
      if response.NoChoice? || (response.content == "" && response.calls == []) {
        return Talk(messages, made, reply, roundCount + 1);
      }
      if response.content != "" {
        reply := response.content;
      }
      messages := messages + [Assistant(response.content, response.calls)];
      if response.calls == [] {
        return Talk(messages, made, reply, roundCount + 1);
      }
      made, messages := RunTools(tools, response.calls, made, messages);
      AskedTwice(roundCount, 1, Converse(vendor, tools, messages, made, reply, left - 1));
      roundCount, left := roundCount + 1, left - 1;
    }
    OutOfRounds(vendor, tools, messages, made, reply, left);
    return Talk(messages, made, reply, roundCount);
  }

  lemma NextCall(tools: Tools, made: seq<Made>, calls: seq<Call>, i: nat)
    requires i < |calls|
    ensures var entry := Execute(tools, made, calls[i]);
      && ExecuteAll(tools, made, calls[i..]) == [entry] + ExecuteAll(tools, made + [entry], calls[i + 1..])
      && ToolMessages(tools, made, calls[i..])
        == [Tool(calls[i].id, tools.shown(entry.result))] + ToolMessages(tools, made + [entry], calls[i + 1..])
  {
    assert calls[i..][0] == calls[i] && calls[i..][1..] == calls[i + 1..];
    hide Execute;
  }

  lemma NoMoreCalls(tools: Tools, made: seq<Made>)
    ensures ExecuteAll(tools, made, []) == [] && ToolMessages(tools, made, []) == []
  {
  }

  /** The loop over one message's tool calls. */
  method RunTools(tools: Tools, calls: seq<Call>, made0: seq<Made>, messages0: seq<Message>)
    returns (made: seq<Made>, messages: seq<Message>)
    ensures made == made0 + ExecuteAll(tools, made0, calls)
    ensures messages == messages0 + ToolMessages(tools, made0, calls)
  {
    hide Execute, ExecuteAll, ToolMessages;
    made, messages := made0, messages0;
    var i := 0;
    assert calls[0..] == calls;
    while i < |calls|
      invariant 0 <= i <= |calls|
      invariant made0 + ExecuteAll(tools, made0, calls) == made + ExecuteAll(tools, made, calls[i..])
      invariant messages0 + ToolMessages(tools, made0, calls) == messages + ToolMessages(tools, made, calls[i..])
    {
      NextCall(tools, made, calls, i);
      var entry := Execute(tools, made, calls[i]);
      messages := messages + [Tool(calls[i].id, tools.shown(entry.result))];
      made := made + [entry];
      i := i + 1;
    }
    NoMoreCalls(tools, made);
    assert made + [] == made && messages + [] == messages && calls[i..] == [];
  }

  // ---- The protocol ----

  /** The first |calls| messages of ms are the results of these calls, in order. */
  predicate Answered(ms: seq<Message>, calls: seq<Call>) {
    |calls| <= |ms| && forall k :: 0 <= k < |calls| ==> ms[k].Tool? && ms[k].callId == calls[k].id
  }

  /** Every assistant message is followed by exactly the results of its own calls. */
  predicate Paired(ms: seq<Message>)
    decreases |ms|
  {
    ms == [] ||
    (ms[0].Assistant? && Answered(ms[1..], ms[0].calls) && Paired(ms[1..][|ms[0].calls|..]))
  }

  /** The calls of all assistant messages, in order. */
  function CallsIn(ms: seq<Message>): seq<Call> {
    if ms == [] then [] else (if ms[0].Assistant? then ms[0].calls else []) + CallsIn(ms[1..])
  }

  /** The texts of all tool results, in order. */
  function ResultsIn(ms: seq<Message>): seq<string> {
    if ms == [] then [] else (if ms[0].Tool? then [ms[0].content] else []) + ResultsIn(ms[1..])
  }

  function Assistants(ms: seq<Message>): nat {
    if ms == [] then 0 else (if ms[0].Assistant? then 1 else 0) + Assistants(ms[1..])
  }

  /** The log lists the same calls in the same order, with the results the transcript shows. */
  predicate Logs(tools: Tools, made: seq<Made>, calls: seq<Call>, results: seq<string>) {
    && |made| == |calls| == |results|
    && forall k :: 0 <= k < |made| ==>
      made[k].name == calls[k].name && made[k].arguments == calls[k].arguments
      && results[k] == tools.shown(made[k].result)
  }

  /** What a run of the loop adds to a transcript. */
  predicate GoodTail(tools: Tools, tail: seq<Message>, made: seq<Made>, asked: nat) {
    Paired(tail) && Assistants(tail) <= asked && Logs(tools, made, CallsIn(tail), ResultsIn(tail))
  }

  lemma {:induction false} ToolMessagesAnswer(tools: Tools, made: seq<Made>, calls: seq<Call>)
    ensures Answered(ToolMessages(tools, made, calls), calls) && |ToolMessages(tools, made, calls)| == |calls|
    decreases |calls|
  {
    hide Execute;
    if calls != [] {
      ToolMessagesAnswer(tools, made + [Execute(tools, made, calls[0])], calls[1..]);
      assert forall k :: 0 < k < |calls| ==> calls[k] == calls[1..][k - 1];
    }
  }

  lemma {:induction false} ToolMessagesQuiet(tools: Tools, made: seq<Made>, calls: seq<Call>)
    ensures CallsIn(ToolMessages(tools, made, calls)) == [] && Assistants(ToolMessages(tools, made, calls)) == 0
    decreases |calls|
  {
    hide Execute;
    if calls != [] {
      ToolMessagesQuiet(tools, made + [Execute(tools, made, calls[0])], calls[1..]);
    }
  }

  lemma ExecuteNames(tools: Tools, made: seq<Made>, c: Call)
    ensures Execute(tools, made, c).name == c.name && Execute(tools, made, c).arguments == c.arguments
  {
  }

  lemma {:induction false} ToolMessagesLogged(tools: Tools, made: seq<Made>, calls: seq<Call>)
    ensures Logs(tools, ExecuteAll(tools, made, calls), calls, ResultsIn(ToolMessages(tools, made, calls)))
    decreases |calls|
  {
    hide Execute, Logs;
    if calls == [] {
      assert Logs(tools, [], [], []) by { NothingLogged(tools); }
    } else {
      var entry, rest := Execute(tools, made, calls[0]), calls[1..];
      var later := ToolMessages(tools, made + [entry], rest);
      ExecuteNames(tools, made, calls[0]);
      ToolMessagesLogged(tools, made + [entry], rest);
      OneLogged(tools, entry, calls[0]);
      LogsBoth(tools, [entry], [calls[0]], [tools.shown(entry.result)],
               ExecuteAll(tools, made + [entry], rest), rest, ResultsIn(later));
      assert calls == [calls[0]] + rest;
    }
  }

  lemma NothingLogged(tools: Tools)
    ensures Logs(tools, [], [], [])
  {
  }

  lemma OneLogged(tools: Tools, entry: Made, c: Call)
    requires entry.name == c.name && entry.arguments == c.arguments
    ensures Logs(tools, [entry], [c], [tools.shown(entry.result)])
  {
  }

  lemma {:induction false} CallsAppend(a: seq<Message>, b: seq<Message>)
    ensures CallsIn(a + b) == CallsIn(a) + CallsIn(b)
  {
    if a == [] {
      assert a + b == b;
    } else {
      assert (a + b)[0] == a[0] && (a + b)[1..] == a[1..] + b;
      CallsAppend(a[1..], b);
    }
  }

  lemma {:induction false} ResultsAppend(a: seq<Message>, b: seq<Message>)
    ensures ResultsIn(a + b) == ResultsIn(a) + ResultsIn(b)
  {
    if a == [] {
      assert a + b == b;
    } else {
      assert (a + b)[0] == a[0] && (a + b)[1..] == a[1..] + b;
      ResultsAppend(a[1..], b);
    }
  }

  lemma {:induction false} AssistantsAppend(a: seq<Message>, b: seq<Message>)
    ensures Assistants(a + b) == Assistants(a) + Assistants(b)
  {
    if a == [] {
      assert a + b == b;
    } else {
      assert (a + b)[0] == a[0] && (a + b)[1..] == a[1..] + b;
      AssistantsAppend(a[1..], b);
    }
  }

  lemma RoundParts(content: string, calls: seq<Call>, results: seq<Message>, rest: seq<Message>)
    requires CallsIn(results) == [] && Assistants(results) == 0
    ensures var tail := [Assistant(content, calls)] + (results + rest);
      && CallsIn(tail) == calls + CallsIn(rest)
      && ResultsIn(tail) == ResultsIn(results) + ResultsIn(rest)
      && Assistants(tail) == 1 + Assistants(rest)
  {
    var first := [Assistant(content, calls)];
    CallsAppend(results, rest);
    CallsAppend(first, results + rest);
    ResultsAppend(results, rest);
    ResultsAppend(first, results + rest);
    AssistantsAppend(results, rest);
    AssistantsAppend(first, results + rest);
    assert first[1..] == [];
    assert [] + CallsIn(rest) == CallsIn(rest);
  }

  lemma RoundTail(tools: Tools, before: seq<Made>, content: string, calls: seq<Call>, rest: seq<Message>,
                  added: seq<Made>, asked: nat)
    requires GoodTail(tools, rest, added, asked)
    ensures GoodTail(tools, [Assistant(content, calls)] + (ToolMessages(tools, before, calls) + rest),
                     ExecuteAll(tools, before, calls) + added, asked + 1)
  {
    hide ToolMessages, ExecuteAll, Paired, CallsIn, ResultsIn, Assistants, Logs, Answered;
    var results := ToolMessages(tools, before, calls);
    ToolMessagesAnswer(tools, before, calls);
    ToolMessagesQuiet(tools, before, calls);
    ToolMessagesLogged(tools, before, calls);
    RoundParts(content, calls, results, rest);
    PairedRound(content, calls, results, rest);
    LogsBoth(tools, ExecuteAll(tools, before, calls), calls, ResultsIn(results), added, CallsIn(rest), ResultsIn(rest));
  }

  lemma PairedRound(content: string, calls: seq<Call>, results: seq<Message>, rest: seq<Message>)
    requires Answered(results, calls) && |results| == |calls| && Paired(rest)
    ensures Paired([Assistant(content, calls)] + (results + rest))
  {
    var tail := [Assistant(content, calls)] + (results + rest);
    assert tail[1..] == results + rest;
    assert (results + rest)[|calls|..] == rest;
    assert forall k :: 0 <= k < |calls| ==> (results + rest)[k] == results[k];
  }

  lemma LogsBoth(tools: Tools, m1: seq<Made>, c1: seq<Call>, r1: seq<string>,
                 m2: seq<Made>, c2: seq<Call>, r2: seq<string>)
    requires Logs(tools, m1, c1, r1) && Logs(tools, m2, c2, r2)
    ensures Logs(tools, m1 + m2, c1 + c2, r1 + r2)
  {
  }

  lemma LastTail(tools: Tools, content: string)
    ensures GoodTail(tools, [Assistant(content, [])], [], 1) && GoodTail(tools, [], [], 0) && GoodTail(tools, [], [], 1)
  {
    assert [Assistant(content, [])][1..] == [];
  }

  /** The capability a tool name stands for. */
  function CapabilityOf(tools: Tools, name: string): string {
    if name in tools.capabilityOf then tools.capabilityOf[name] else ""
  }

  /**
    The log entry of a call made after the calls in `before`: an API tool gives its own result; a
    name without a capability and a capability the user may not use each give their failure; any
    other one gives what its handler returns or raises.
   */
  predicate RanAs(tools: Tools, before: seq<Made>, c: Call, entry: Made) {
    var id, allowed := CapabilityOf(tools, c.name), tools.capabilities;
    && entry.name == c.name && entry.arguments == c.arguments
    && (c.name in tools.api ==> entry.capability == None && entry.result == Result(tools.api[c.name](before, c)))
    && (c.name !in tools.api ==>
      && entry.capability == Some(id)
      && (id !in allowed ==> entry.result == Failure("Unknown capability for tool: " + c.name))
      && (id in allowed && !allowed[id] ==> entry.result == Failure("Permission denied"))
      && (id in allowed && allowed[id] ==>
        && (tools.handler(before, id, c).Returned? ==> entry.result == Result(tools.handler(before, id, c).json))
        && (tools.handler(before, id, c).Raised? ==> entry.result == Failure(tools.handler(before, id, c).error))))
  }

  /** Every call has its entry, each run on the log before it. */
  predicate AllRan(tools: Tools, made: seq<Made>, calls: seq<Call>, added: seq<Made>) {
    |added| == |calls| && forall k :: 0 <= k < |calls| ==> RanAs(tools, made + added[..k], calls[k], added[k])
  }

  lemma ExecuteRuns(tools: Tools, made: seq<Made>, c: Call)
    ensures RanAs(tools, made, c, Execute(tools, made, c))
  {
  }

  lemma RanBoth(tools: Tools, made: seq<Made>, c1: seq<Call>, a1: seq<Made>, c2: seq<Call>, a2: seq<Made>)
    requires AllRan(tools, made, c1, a1) && AllRan(tools, made + a1, c2, a2)
    ensures AllRan(tools, made, c1 + c2, a1 + a2)
  {
    hide RanAs;
    forall k | 0 <= k < |c1 + c2|
      ensures RanAs(tools, made + (a1 + a2)[..k], (c1 + c2)[k], (a1 + a2)[k])
    {
      if k < |c1| {
        assert (a1 + a2)[..k] == a1[..k];
      } else {
        var j := k - |c1|;
        assert RanAs(tools, (made + a1) + a2[..j], c2[j], a2[j]);
        assert made + (a1 + a2)[..k] == (made + a1) + a2[..j];
      }
    }
  }

  lemma {:induction false} AllExecuted(tools: Tools, made: seq<Made>, calls: seq<Call>)
    ensures AllRan(tools, made, calls, ExecuteAll(tools, made, calls))
    decreases |calls|
  {
    hide RanAs, Execute;
    if calls != [] {
      var entry := Execute(tools, made, calls[0]);
      ExecuteRuns(tools, made, calls[0]);
      assert made + [entry][..0] == made;
      AllExecuted(tools, made + [entry], calls[1..]);
      RanBoth(tools, made, [calls[0]], [entry], calls[1..], ExecuteAll(tools, made + [entry], calls[1..]));
      assert calls == [calls[0]] + calls[1..];
    }
  }

  /** What the loop does to a transcript and a log. */
  predicate GoodTalk(tools: Tools, messages: seq<Message>, made: seq<Made>, talk: Talk, tail: seq<Message>,
                     added: seq<Made>) {
    && talk.messages == messages + tail && talk.made == made + added && GoodTail(tools, tail, added, talk.asked)
    && AllRan(tools, made, CallsIn(tail), added)
  }

  lemma NothingAdded(tools: Tools, messages: seq<Message>, made: seq<Made>, reply: string, n: nat)
    requires n <= 1
    ensures GoodTalk(tools, messages, made, Talk(messages, made, reply, n), [], [])
  {
    LastTail(tools, "");
    assert messages + [] == messages && made + [] == made && CallsIn([]) == [];
  }

  lemma RoundAdded(tools: Tools, messages: seq<Message>, made: seq<Made>, content: string, calls: seq<Call>, talk: Talk,
                   rest: seq<Message>, later: seq<Made>)
    requires GoodTalk(tools, (messages + [Assistant(content, calls)]) + ToolMessages(tools, made, calls),
                      made + ExecuteAll(tools, made, calls), talk, rest, later)
    ensures GoodTalk(tools, messages, made, Asked(1, talk),
                     [Assistant(content, calls)] + (ToolMessages(tools, made, calls) + rest),
                     ExecuteAll(tools, made, calls) + later)
  {
    hide GoodTail, ToolMessages, ExecuteAll, AllRan, CallsIn;
    RoundTail(tools, made, content, calls, rest, later, talk.asked);
    AllExecuted(tools, made, calls);
    ToolMessagesQuiet(tools, made, calls);
    RoundParts(content, calls, ToolMessages(tools, made, calls), rest);
    RanBoth(tools, made, calls, ExecuteAll(tools, made, calls), CallsIn(rest), later);
    Regroup(messages, [Assistant(content, calls)], ToolMessages(tools, made, calls), rest);
    assert (made + ExecuteAll(tools, made, calls)) + later == made + (ExecuteAll(tools, made, calls) + later);
  }

  /**
    Against every vendor and for every tools: the model is asked at most `rounds` times; what the
    loop adds to the transcript pairs every assistant message with exactly its own results; and
    the log lists those calls in that order with those results, each being what the tool gives
    on the log before it, or the failure of an unknown, a forbidden or a raising one.
   */
  lemma {:induction false} ConversePaired(vendor: Vendor, tools: Tools, messages: seq<Message>, made: seq<Made>,
                                          reply: string, rounds: nat)
    returns (tail: seq<Message>, added: seq<Made>)
    ensures var talk := Converse(vendor, tools, messages, made, reply, rounds);
      talk.asked <= rounds && GoodTalk(tools, messages, made, talk, tail, added)
    decreases rounds
  {
    hide Converse, GoodTalk, ToolMessages, ExecuteAll;
    tail, added := [], [];
    if rounds == 0 {
      OutOfRounds(vendor, tools, messages, made, reply, rounds);
      NothingAdded(tools, messages, made, reply, 0);
      return;
    }
    Turn(vendor, tools, messages, made, reply, rounds);
    NothingAdded(tools, messages, made, reply, 1);
    match vendor(messages)
    case NoChoice =>
    case Answer(content, calls) =>
      if content != "" || calls != [] {
        var shown := if content != "" then content else reply;
        if calls == [] {
          OnlyAnswer(tools, messages, made, content, shown);
          tail := [Assistant(content, [])];
        } else {
          var next := (messages + [Assistant(content, calls)]) + ToolMessages(tools, made, calls);
          var done := made + ExecuteAll(tools, made, calls);
          var rest, later := ConversePaired(vendor, tools, next, done, shown, rounds - 1);
          RoundAdded(tools, messages, made, content, calls, Converse(vendor, tools, next, done, shown, rounds - 1),
                     rest, later);
          tail := [Assistant(content, calls)] + (ToolMessages(tools, made, calls) + rest);
          added := ExecuteAll(tools, made, calls) + later;
        }
      }
  }

  lemma OnlyAnswer(tools: Tools, messages: seq<Message>, made: seq<Made>, content: string, shown: string)
    ensures GoodTalk(tools, messages, made, Talk(messages + [Assistant(content, [])], made, shown, 1),
                     [Assistant(content, [])], [])
  {
    LastTail(tools, content);
    assert made + [] == made;
    assert [Assistant(content, [])][1..] == [] && CallsIn([Assistant(content, [])]) == [];
  }

  /** Every assistant message is the vendor's answer to the transcript before it. */
  predicate AnswersBefore(vendor: Vendor, prefix: seq<Message>, tail: seq<Message>) {
    forall k :: 0 <= k < |tail| && tail[k].Assistant? ==>
      vendor(prefix + tail[..k]) == Answer(tail[k].content, tail[k].calls)
  }

  lemma {:induction false} ConverseFaithful(vendor: Vendor, tools: Tools, messages: seq<Message>, made: seq<Made>,
                                            reply: string, rounds: nat)
    returns (tail: seq<Message>)
    ensures Converse(vendor, tools, messages, made, reply, rounds).messages == messages + tail
    ensures AnswersBefore(vendor, messages, tail)
    decreases rounds
  {
    hide Converse, ToolMessages, ExecuteAll;
    tail := [];
    assert messages + [] == messages;
    if rounds == 0 {
      OutOfRounds(vendor, tools, messages, made, reply, rounds);
      return;
    }
    Turn(vendor, tools, messages, made, reply, rounds);
    match vendor(messages)
    case NoChoice =>
    case Answer(content, calls) =>
      var said := [Assistant(content, calls)];
      if calls != [] {
        var shown := if content != "" then content else reply;
        var results, done := ToolMessages(tools, made, calls), made + ExecuteAll(tools, made, calls);
        var rest := ConverseFaithful(vendor, tools, (messages + said) + results, done, shown, rounds - 1);
        tail := said + (results + rest);
        ToolMessagesAnswer(tools, made, calls);
        Regroup(messages, said, results, rest);
        FaithfulRound(vendor, messages, content, calls, results, rest);
      } else if content != "" {
        tail := said;
        OneAnswer(vendor, messages, content);
      }
  }

  /** Every assistant message asks for tools. */
  predicate AllCall(ms: seq<Message>) {
    forall k :: 0 <= k < |ms| && ms[k].Assistant? ==> ms[k].calls != []
  }

  /**
    The loop stops in one of three ways: it was asked as often as it may be, and tools were asked
    for each time; or the model has nothing to say to the transcript as it is; or its last message
    is a text that asks for no tools.
   */
  predicate Ends(vendor: Vendor, messages: seq<Message>, tail: seq<Message>, asked: nat, rounds: nat) {
    || (asked == rounds == Assistants(tail) && AllCall(tail))
    || (asked == Assistants(tail) + 1 <= rounds && AllCall(tail)
        && (vendor(messages + tail) == NoChoice || vendor(messages + tail) == Answer("", [])))
    || (asked == Assistants(tail) <= rounds && tail != [] && AllCall(tail[..|tail| - 1])
        && tail[|tail| - 1].Assistant? && tail[|tail| - 1].calls == [] && tail[|tail| - 1].content != "")
  }

  /** The conversation goes on for as long as the model asks for tools and may be asked. */
  lemma {:induction false} ConverseEnds(vendor: Vendor, tools: Tools, messages: seq<Message>, made: seq<Made>,
                                        reply: string, rounds: nat)
    returns (tail: seq<Message>)
    ensures var talk := Converse(vendor, tools, messages, made, reply, rounds);
      talk.messages == messages + tail && Ends(vendor, messages, tail, talk.asked, rounds)
    decreases rounds
  {
    hide Converse, ToolMessages, ExecuteAll;
    tail := [];
    assert messages + [] == messages;
    if rounds == 0 {
      OutOfRounds(vendor, tools, messages, made, reply, rounds);
      return;
    }
    Turn(vendor, tools, messages, made, reply, rounds);
    match vendor(messages)
    case NoChoice =>
    case Answer(content, calls) =>
      var said := [Assistant(content, calls)];
      if calls != [] {
        var shown := if content != "" then content else reply;
        var results, done := ToolMessages(tools, made, calls), made + ExecuteAll(tools, made, calls);
        var rest := ConverseEnds(vendor, tools, (messages + said) + results, done, shown, rounds - 1);
        tail := said + (results + rest);
        Regroup(messages, said, results, rest);
        EndsLater(vendor, tools, messages, made, content, calls, rest,
                  Converse(vendor, tools, (messages + said) + results, done, shown, rounds - 1).asked, rounds);
      } else if content != "" {
        tail := said;
        assert Assistants(said) == 1 && said[..0] == [] by { assert said[1..] == []; }
      }
  }

  lemma EndsLater(vendor: Vendor, tools: Tools, messages: seq<Message>, made: seq<Made>, content: string,
                  calls: seq<Call>, rest: seq<Message>, asked: nat, rounds: nat)
    requires rounds > 0 && calls != []
    requires Ends(vendor, (messages + [Assistant(content, calls)]) + ToolMessages(tools, made, calls), rest, asked,
                  rounds - 1)
    ensures Ends(vendor, messages, [Assistant(content, calls)] + (ToolMessages(tools, made, calls) + rest), asked + 1,
                 rounds)
  {
    var said, results := [Assistant(content, calls)], ToolMessages(tools, made, calls);
    ToolMessagesQuiet(tools, made, calls);
    ToolMessagesAnswer(tools, made, calls);
    RoundParts(content, calls, results, rest);
    Regroup(messages, said, results, rest);
    hide ToolMessages, Assistants, CallsIn;
    var tail := said + (results + rest);
    assert forall k :: 0 <= k < |results| ==> results[k].Tool?;
    if AllCall(rest) {
      AllCallBoth(said, results, rest);
    }
    if rest != [] && AllCall(rest[..|rest| - 1]) {
      assert tail[|tail| - 1] == rest[|rest| - 1];
      assert tail[..|tail| - 1] == said + (results + rest[..|rest| - 1]);
      AllCallBoth(said, results, rest[..|rest| - 1]);
    }
  }

  lemma AllCallBoth(a: seq<Message>, b: seq<Message>, c: seq<Message>)
    requires AllCall(a) && AllCall(b) && AllCall(c)
    ensures AllCall(a + (b + c))
  {
  }

  lemma Regroup(a: seq<Message>, b: seq<Message>, c: seq<Message>, d: seq<Message>)
    ensures ((a + b) + c) + d == a + (b + (c + d))
  {
  }

  lemma OneAnswer(vendor: Vendor, messages: seq<Message>, content: string)
    requires vendor(messages) == Answer(content, [])
    ensures AnswersBefore(vendor, messages, [Assistant(content, [])])
  {
    assert messages + [Assistant(content, [])][..0] == messages;
  }

  lemma FaithfulRound(vendor: Vendor, messages: seq<Message>, content: string, calls: seq<Call>,
                      results: seq<Message>, rest: seq<Message>)
    requires vendor(messages) == Answer(content, calls)
    requires Answered(results, calls) && |results| == |calls|
    requires AnswersBefore(vendor, (messages + [Assistant(content, calls)]) + results, rest)
    ensures AnswersBefore(vendor, messages, [Assistant(content, calls)] + (results + rest))
  {
    var tail := [Assistant(content, calls)] + (results + rest);
    forall k | 0 <= k < |tail| && tail[k].Assistant?
      ensures vendor(messages + tail[..k]) == Answer(tail[k].content, tail[k].calls)
    {
      if k == 0 {
        assert messages + tail[..0] == messages;
      } else if k <= |results| {
        assert false;
      } else {
        var j := k - 1 - |results|;
        assert tail[k] == rest[j];
        assert messages + tail[..k] == ((messages + [Assistant(content, calls)]) + results) + rest[..j];
      }
    }
  }

  /** The content of the last assistant message that has one, or what was shown before. */
  function LastSaid(ms: seq<Message>, before: string): string {
    if ms == [] then before
    else LastSaid(ms[1..], if ms[0].Assistant? && ms[0].content != "" then ms[0].content else before)
  }

  lemma {:induction false} ToolsSayNothing(tools: Tools, made: seq<Made>, calls: seq<Call>, rest: seq<Message>,
                                           before: string)
    ensures LastSaid(ToolMessages(tools, made, calls) + rest, before) == LastSaid(rest, before)
    decreases |calls|
  {
    var results := ToolMessages(tools, made, calls);
    if calls == [] {
      assert results + rest == rest;
    } else {
      var entry := Execute(tools, made, calls[0]);
      assert (results + rest)[1..] == ToolMessages(tools, made + [entry], calls[1..]) + rest;
      ToolsSayNothing(tools, made + [entry], calls[1..], rest, before);
    }
  }

  lemma FewSay(content: string, before: string)
    ensures LastSaid([], before) == before
    ensures LastSaid([Assistant(content, [])], before) == if content != "" then content else before
  {
    assert [Assistant(content, [])][1..] == [];
  }

  /** The reply shown at the end is the last text the model gave in the transcript. */
  lemma {:induction false} ReplyIsLast(vendor: Vendor, tools: Tools, messages: seq<Message>, made: seq<Made>,
                                       reply: string, rounds: nat, tail: seq<Message>)
    requires Converse(vendor, tools, messages, made, reply, rounds).messages == messages + tail
    ensures Converse(vendor, tools, messages, made, reply, rounds).reply == LastSaid(tail, reply)
    decreases rounds, 1
  {
    hide Converse, LastSaid, ToolMessages, ExecuteAll, Execute;
    assert messages + [] == messages;
    FewSay("", reply);
    if rounds == 0 {
      OutOfRounds(vendor, tools, messages, made, reply, rounds);
      SameTail(messages, tail, []);
      return;
    }
    Turn(vendor, tools, messages, made, reply, rounds);
    match vendor(messages)
    case NoChoice => SameTail(messages, tail, []);
    case Answer(content, calls) =>
      if content == "" && calls == [] {
        SameTail(messages, tail, []);
      } else if calls == [] {
        SameTail(messages, tail, [Assistant(content, calls)]);
        FewSay(content, reply);
      } else {
        ReplyAfterRound(vendor, tools, messages, made, reply, rounds, tail, content, calls);
      }
  }

  lemma {:induction false} ReplyAfterRound(vendor: Vendor, tools: Tools, messages: seq<Message>, made: seq<Made>,
                                           reply: string, rounds: nat, tail: seq<Message>, content: string,
                                           calls: seq<Call>)
    requires rounds > 0 && vendor(messages) == Answer(content, calls) && calls != []
    requires Converse(vendor, tools, messages, made, reply, rounds).messages == messages + tail
    ensures Converse(vendor, tools, messages, made, reply, rounds).reply == LastSaid(tail, reply)
    decreases rounds, 0
  {
    hide Converse, LastSaid, ToolMessages, ExecuteAll, Execute, GoodTail;
    Turn(vendor, tools, messages, made, reply, rounds);
    var results, shown := ToolMessages(tools, made, calls), if content != "" then content else reply;
    var next, done := (messages + [Assistant(content, calls)]) + results, made + ExecuteAll(tools, made, calls);
    var rest, later := ConversePaired(vendor, tools, next, done, shown, rounds - 1);
    ReplyIsLast(vendor, tools, next, done, shown, rounds - 1, rest);
    Regroup(messages, [Assistant(content, calls)], results, rest);
    SameTail(messages, tail, [Assistant(content, calls)] + (results + rest));
    RoundSays(tools, made, content, calls, rest, reply);
  }

  lemma SameTail(messages: seq<Message>, a: seq<Message>, b: seq<Message>)
    requires messages + a == messages + b
    ensures a == b
  {
    assert a == (messages + a)[|messages|..] == (messages + b)[|messages|..] == b;
  }

  lemma RoundSays(tools: Tools, made: seq<Made>, content: string, calls: seq<Call>, rest: seq<Message>, before: string)
    ensures LastSaid([Assistant(content, calls)] + (ToolMessages(tools, made, calls) + rest), before)
      == LastSaid(rest, if content != "" then content else before)
  {
    var after := ToolMessages(tools, made, calls) + rest;
    assert ([Assistant(content, calls)] + after)[1..] == after;
    ToolsSayNothing(tools, made, calls, rest, if content != "" then content else before);
  }

  /** The same tools, except for handlers of capabilities that may not be used. */
  ghost predicate SamePermitted(one: Tools, two: Tools) {
    && two == one.(handler := two.handler)
    && forall made, id, c :: id in one.capabilities && one.capabilities[id] ==>
      one.handler(made, id, c) == two.handler(made, id, c)
  }

  lemma {:induction false} SameRound(one: Tools, two: Tools, made: seq<Made>, calls: seq<Call>)
    requires SamePermitted(one, two)
    ensures ExecuteAll(one, made, calls) == ExecuteAll(two, made, calls)
    ensures ToolMessages(one, made, calls) == ToolMessages(two, made, calls)
    decreases |calls|
  {
    if calls != [] {
      assert Execute(one, made, calls[0]) == Execute(two, made, calls[0]);
      hide Execute;
      SameRound(one, two, made + [Execute(one, made, calls[0])], calls[1..]);
    }
  }

  /** Whatever the model asks for, no conversation depends on a handler the user may not run. */
  lemma {:induction false} PermittedOnly(vendor: Vendor, one: Tools, two: Tools, messages: seq<Message>,
                                         made: seq<Made>, reply: string, rounds: nat)
    requires SamePermitted(one, two)
    ensures Converse(vendor, one, messages, made, reply, rounds) == Converse(vendor, two, messages, made, reply, rounds)
    decreases rounds
  {
    hide SamePermitted, ExecuteAll, ToolMessages;
    if rounds > 0 && vendor(messages).Answer? {
      var Answer(content, calls) := vendor(messages);
      SameRound(one, two, made, calls);
      PermittedOnly(vendor, one, two, (messages + [Assistant(content, calls)]) + ToolMessages(one, made, calls),
                    made + ExecuteAll(one, made, calls), if content != "" then content else reply, rounds - 1);
    }
  }

  // ---- The streamed form ----

  type StreamVendor = seq<Message> -> seq<Chunk>

  /** What the streaming loop reads out of one stream; it never sees an answer without a choice. */
  ghost function Streamed(chunks: seq<Chunk>): (string, seq<Call>) {
    var calls := AbsorbAll(map[], DeltasOf(chunks));
    (Joined(SentBy(chunks)), Listed(calls, calls.Keys))
  }

  /** The transcript of the streamed conversation and the calls it makes. */
  ghost function ConverseStream(vendor: StreamVendor, tools: Tools, messages: seq<Message>, made: seq<Made>,
                                rounds: nat)
    : Talk
    decreases rounds
  {
    if rounds == 0 then Talk(messages, made, "", 0)
    else
      var (content, calls) := Streamed(vendor(messages));
      var said := messages + [Assistant(content, calls)];
      if calls == [] then Talk(said, made, content, 1)
      else
        Asked(1, ConverseStream(vendor, tools, said + ToolMessages(tools, made, calls),
                                made + ExecuteAll(tools, made, calls), rounds - 1))
  }

  lemma StreamTurn(vendor: StreamVendor, tools: Tools, messages: seq<Message>, made: seq<Made>, rounds: nat,
                   content: string, calls: seq<Call>)
    requires rounds > 0 && (content, calls) == Streamed(vendor(messages))
    ensures var now := ConverseStream(vendor, tools, messages, made, rounds);
      var said := messages + [Assistant(content, calls)];
      if calls == [] then now == Talk(said, made, content, 1)
      else now == Asked(1, ConverseStream(vendor, tools, said + ToolMessages(tools, made, calls),
                                          made + ExecuteAll(tools, made, calls), rounds - 1))
  {
  }

  lemma OutOfStreams(vendor: StreamVendor, tools: Tools, messages: seq<Message>, made: seq<Made>, rounds: nat)
    requires rounds == 0
    ensures ConverseStream(vendor, tools, messages, made, rounds) == Talk(messages, made, "", 0)
  {
  }

  method ReadStream(chunks: seq<Chunk>) returns (content: string, calls: seq<Call>)
    ensures (content, calls) == Streamed(chunks)
  {
    hide AbsorbAll, Listed, Joined;
    var sent, accumulated;
    content, sent, accumulated := Assemble(chunks);
    calls := ListCalls(accumulated);
  }

  method StreamChat(vendor: StreamVendor, tools: Tools, initial: seq<Message>, maxToolRounds: nat) returns (talk: Talk)
    ensures talk == ConverseStream(vendor, tools, initial, [], maxToolRounds)
  {
    hide Execute, ExecuteAll, ToolMessages, ConverseStream, Streamed;
    var messages, made, roundCount := initial, [], 0;
    ghost var whole := ConverseStream(vendor, tools, initial, [], maxToolRounds);
    ghost var left := maxToolRounds;
    AskedTwice(0, 0, whole);
    while roundCount < maxToolRounds
      invariant 0 <= roundCount <= maxToolRounds
      invariant left == maxToolRounds - roundCount
      invariant whole == Asked(roundCount, ConverseStream(vendor, tools, messages, made, left))
    {
      var content, calls := ReadStream(vendor(messages));
      StreamTurn(vendor, tools, messages, made, left, content, calls);
      messages := messages + [Assistant(content, calls)];
      if calls == [] {
        return Talk(messages, made, content, roundCount + 1);
      }
      made, messages := RunTools(tools, calls, made, messages);
      AskedTwice(roundCount, 1, ConverseStream(vendor, tools, messages, made, left - 1));
      roundCount, left := roundCount + 1, left - 1;
    }
    OutOfStreams(vendor, tools, messages, made, left);
    return Talk(messages, made, "", roundCount);
  }

  /** The text of the last message, if the model wrote that one. */
  function LastText(ms: seq<Message>): string {
    if ms != [] && ms[|ms| - 1].Assistant? then ms[|ms| - 1].content else ""
  }

  /** The streamed conversation keeps the same protocol; its reply is its last message, when that is no tool's. */
  lemma {:induction false} StreamPaired(vendor: StreamVendor, tools: Tools, messages: seq<Message>, made: seq<Made>,
                                        rounds: nat)
    returns (tail: seq<Message>, added: seq<Made>)
    ensures var talk := ConverseStream(vendor, tools, messages, made, rounds);
      talk.asked <= rounds && GoodTalk(tools, messages, made, talk, tail, added) && talk.reply == LastText(tail)
    decreases rounds
  {
    hide ConverseStream, GoodTalk, ToolMessages, ExecuteAll, Streamed;
    tail, added := [], [];
    if rounds == 0 {
      OutOfStreams(vendor, tools, messages, made, rounds);
      NothingAdded(tools, messages, made, "", 0);
      return;
    }
    var (content, calls) := Streamed(vendor(messages));
    StreamTurn(vendor, tools, messages, made, rounds, content, calls);
    if calls == [] {
      OnlyAnswer(tools, messages, made, content, content);
      tail := [Assistant(content, [])];
    } else {
      var next := (messages + [Assistant(content, calls)]) + ToolMessages(tools, made, calls);
      var done := made + ExecuteAll(tools, made, calls);
      var rest, later := StreamPaired(vendor, tools, next, done, rounds - 1);
      RoundAdded(tools, messages, made, content, calls, ConverseStream(vendor, tools, next, done, rounds - 1),
                 rest, later);
      tail := [Assistant(content, calls)] + (ToolMessages(tools, made, calls) + rest);
      added := ExecuteAll(tools, made, calls) + later;
      ToolMessagesAnswer(tools, made, calls);
      if rest == [] {
        assert tail[|tail| - 1] == ToolMessages(tools, made, calls)[|calls| - 1];
      } else {
        assert tail[|tail| - 1] == rest[|rest| - 1];
      }
    }
  }

  // ---- Streaming changes nothing ----

  /** The chunks carry this answer: its content in pieces, its calls cut into fragments under some indices. */
  ghost predicate Carries(chunks: seq<Chunk>, content: string, calls: seq<Call>) {
    Joined(SentBy(chunks)) == content
    && exists m: Calls :: Listed(m, m.Keys) == calls && FragmentedAs(DeltasOf(chunks), m)
  }

  lemma CarriedIsStreamed(chunks: seq<Chunk>, content: string, calls: seq<Call>)
    requires Carries(chunks, content, calls)
    ensures Streamed(chunks) == (content, calls)
  {
    hide Listed, AbsorbAll, Joined, SentBy, DeltasOf;
    var m: Calls :| Listed(m, m.Keys) == calls && FragmentedAs(DeltasOf(chunks), m);
    Reassembled(DeltasOf(chunks), m);
  }

  /** What the model says, nothing when there is no choice. */
  function Said(reply: Reply): (string, seq<Call>) {
    match reply
    case NoChoice => ("", [])
    case Answer(content, calls) => (content, calls)
  }

  /** Of every transcript that the conversation asks about, the stream carries what the vendor says. */
  ghost predicate StreamsAlong(vendor: Vendor, stream: StreamVendor, tools: Tools, messages: seq<Message>,
                               made: seq<Made>, rounds: nat)
    decreases rounds
  {
    rounds > 0 ==>
      var (content, calls) := Said(vendor(messages));
      && Carries(stream(messages), content, calls)
      && (calls != [] ==>
        StreamsAlong(vendor, stream, tools, (messages + [Assistant(content, calls)]) + ToolMessages(tools, made, calls),
                     made + ExecuteAll(tools, made, calls), rounds - 1))
  }

  /** The conversation ends because the model says nothing. */
  predicate EndsSilent(vendor: Vendor, tools: Tools, messages: seq<Message>, made: seq<Made>, rounds: nat)
    decreases rounds
  {
    rounds > 0 &&
      var (content, calls) := Said(vendor(messages));
      if calls == [] then content == ""
      else EndsSilent(vendor, tools, (messages + [Assistant(content, calls)]) + ToolMessages(tools, made, calls),
                      made + ExecuteAll(tools, made, calls), rounds - 1)
  }

  /**
    However a vendor's answers are cut into streams, the streamed conversation makes the same
    calls and asks as often as the plain one, and has the same transcript, except that it keeps
    one more assistant message, an empty one, exactly when the model ends it by saying nothing.
   */
  lemma {:induction false} StreamRefines(vendor: Vendor, stream: StreamVendor, tools: Tools, messages: seq<Message>,
                                         made: seq<Made>, reply: string, rounds: nat)
    requires StreamsAlong(vendor, stream, tools, messages, made, rounds)
    ensures var plain, streamed := Converse(vendor, tools, messages, made, reply, rounds),
                                   ConverseStream(stream, tools, messages, made, rounds);
      && streamed.made == plain.made && streamed.asked == plain.asked
      && streamed.messages == plain.messages
           + if EndsSilent(vendor, tools, messages, made, rounds) then [Assistant("", [])] else []
    decreases rounds
  {
    hide Converse, ConverseStream, Streamed, Carries, ToolMessages, ExecuteAll;
    if rounds == 0 {
      OutOfRounds(vendor, tools, messages, made, reply, rounds);
      OutOfStreams(stream, tools, messages, made, rounds);
    } else {
      var (content, calls) := Said(vendor(messages));
      CarriedIsStreamed(stream(messages), content, calls);
      Turn(vendor, tools, messages, made, reply, rounds);
      StreamTurn(stream, tools, messages, made, rounds, content, calls);
      if calls != [] {
        StreamRefines(vendor, stream, tools,
                      (messages + [Assistant(content, calls)]) + ToolMessages(tools, made, calls),
                      made + ExecuteAll(tools, made, calls), if content != "" then content else reply, rounds - 1);
      }
    }
  }
}
