/** The token budget of backend/src/orchestration/promptAssembler.ts and the estimates of
    backend/src/orchestration/tokenUtils.ts. */
module PromptTrim {
  import opened Text
  import opened SessionCache

  const CHARS_PER_TOKEN := 4

  const DEFAULT_TOTAL_TOKENS := 200_000
  const DEFAULT_RESPONSE_RESERVE := 4_000

  function EstimateTokens(text: Str): nat {
    (|text| + CHARS_PER_TOKEN - 1) / CHARS_PER_TOKEN
  }

  /** `estimateMessagesTokens`: four tokens of overhead per message. */
  function EstimateMessages(messages: seq<Message>): nat {
    if messages == [] then 0
    else EstimateMessages(messages[..|messages|-1]) + EstimateTokens(messages[|messages|-1].content) + 4
  }

  /** `reduce` over the messages, as the source writes it. */
  method EstimateMessagesTokens(messages: seq<Message>) returns (sum: nat)
    ensures sum == EstimateMessages(messages)
  {
    hide EstimateTokens;
    sum := 0;
    for i := 0 to |messages|
      invariant sum == EstimateMessages(messages[..i])
    {
      assert messages[..i+1][..i] == messages[..i];
      sum := sum + EstimateTokens(messages[i].content) + 4;
    }
    assert messages[..|messages|] == messages;
  }

  /** `trimHistory`: what is kept is the longest suffix of the history whose estimate fits the
      budget, or nothing if none does, and the count is what was dropped. */
  method TrimHistory(history: seq<Message>, budgetTokens: int) returns (working: seq<Message>, turnsTrimmed: nat)
    ensures turnsTrimmed <= |history| && working == history[turnsTrimmed..]
    ensures working == [] || EstimateMessages(working) <= budgetTokens
    ensures forall m :: 0 <= m < |history| && EstimateMessages(history[m..]) <= budgetTokens ==> turnsTrimmed <= m
    ensures turnsTrimmed > 0 ==> EstimateMessages(history[turnsTrimmed-1..]) > budgetTokens
  {
    hide EstimateMessages;
    working, turnsTrimmed := history, 0;
    while |working| > 0
      invariant turnsTrimmed <= |history| && working == history[turnsTrimmed..]
      invariant forall m :: 0 <= m < turnsTrimmed ==> EstimateMessages(history[m..]) > budgetTokens
      decreases |working|
    {
      var estimate := EstimateMessagesTokens(working);
      if estimate <= budgetTokens {
        break;
      }
      working := working[1..];
      turnsTrimmed := turnsTrimmed + 1;
    }
  }

  // ---------- the assembled prompt ----------

  datatype WindowConfig = WindowConfig(totalTokens: Option<int>, responseReserve: Option<int>)

  datatype Prompt = Prompt(
    systemPrompt: Str, messages: seq<Message>, tokenEstimate: nat, historyTrimmed: bool, historyTurnsTrimmed: nat)

  /** What the prompt may take up of the window. */
  function Room(config: WindowConfig): int {
    (if config.totalTokens.Some? then config.totalTokens.value else DEFAULT_TOTAL_TOKENS)
    - (if config.responseReserve.Some? then config.responseReserve.value else DEFAULT_RESPONSE_RESERVE)
  }

  /** What the prompt takes up with no history at all. */
  function FixedParts(staticPrompt: Str, injection: Str, input: Message): nat {
    EstimateTokens(staticPrompt) + EstimateTokens(injection) + EstimateTokens(input.content) + 4
  }

  /** The text of a prompt as the model receives it. */
  function Contents(messages: seq<Message>): Str {
    if messages == [] then []
    else Contents(messages[..|messages|-1]) + messages[|messages|-1].content
  }

  /** Estimating two texts apart never gives less than together, and at most one token more. */
  lemma EstimateOfConcatenation(a: Str, b: Str)
    ensures EstimateTokens(a + b) <= EstimateTokens(a) + EstimateTokens(b) <= EstimateTokens(a + b) + 1
  {
  }

  /** Four characters to the token, rounded up. */
  lemma FourToTheToken(text: Str)
    ensures |text| <= 4 * EstimateTokens(text) <= |text| + 3
  {
  }

  function TotalLength(messages: seq<Message>): nat {
    if messages == [] then 0 else TotalLength(messages[..|messages|-1]) + |messages[|messages|-1].content|
  }

  /** Four tokens of overhead to the message, and each message rounded up by itself. */
  lemma {:induction false} EstimateBounds(messages: seq<Message>)
    ensures TotalLength(messages) + 16 * |messages| <= 4 * EstimateMessages(messages) <= TotalLength(messages) + 19 * |messages|
  {
    if messages != [] {
      EstimateBounds(messages[..|messages|-1]);
      FourToTheToken(messages[|messages|-1].content);
    }
  }

  /** Where the configuration is silent, the window has 200,000 tokens, of which 4,000 are kept for
      the response. */
  lemma WindowLeft(config: WindowConfig)
    ensures config.totalTokens.None? && config.responseReserve.None? ==> Room(config) == 196_000
    ensures config.totalTokens.None? && config.responseReserve.Some? ==> Room(config) == 200_000 - config.responseReserve.value
    ensures config.totalTokens.Some? && config.responseReserve.None? ==> Room(config) == config.totalTokens.value - 4_000
    ensures config.totalTokens.Some? && config.responseReserve.Some? ==>
      Room(config) == config.totalTokens.value - config.responseReserve.value
  {
  }

  lemma {:induction false} EstimateCovers(messages: seq<Message>)
    ensures EstimateTokens(Contents(messages)) + 4 * |messages| <= EstimateMessages(messages)
  {
    hide EstimateTokens;
    if messages == [] {
      NothingCosts();
    } else {
      EstimateCovers(messages[..|messages|-1]);
      EstimateOfConcatenation(Contents(messages[..|messages|-1]), messages[|messages|-1].content);
    }
  }

  lemma NothingCosts()
    ensures EstimateTokens([]) == 0
  {
  }

  lemma EstimateLast(history: seq<Message>, input: Message)
    ensures EstimateMessages(history + [input]) == EstimateMessages(history) + EstimateTokens(input.content) + 4
  {
    hide EstimateTokens;
    assert (history + [input])[..|history|] == history;
  }

  /** `assemblePrompt` from its loaded texts. The current input is always the last message; the
      estimate stays within the window less the response reserve exactly when the parts that are
      never trimmed do; it is at least that of everything sent, and no turn is dropped that could
      have been kept. */
  method AssemblePrompt(staticPrompt: Str, injection: Str, history: seq<Message>, input: Message, config: WindowConfig)
    returns (p: Prompt)
    ensures p.systemPrompt == staticPrompt + injection
    ensures p.historyTurnsTrimmed <= |history| && p.messages == history[p.historyTurnsTrimmed..] + [input]
    ensures p.historyTrimmed <==> p.historyTurnsTrimmed > 0
    ensures p.tokenEstimate <= Room(config) <==> FixedParts(staticPrompt, injection, input) <= Room(config)
    ensures p.tokenEstimate >= EstimateTokens(p.systemPrompt) + EstimateMessages(p.messages)
    ensures p.tokenEstimate <= EstimateTokens(p.systemPrompt) + EstimateMessages(p.messages) + 1
    ensures p.tokenEstimate >= EstimateTokens(p.systemPrompt + Contents(p.messages)) + 4 * |p.messages|
    ensures p.historyTrimmed ==>
      FixedParts(staticPrompt, injection, input) + EstimateMessages(history[p.historyTurnsTrimmed-1..]) > Room(config)
    ensures p.historyTurnsTrimmed < |history| ==>
      p.tokenEstimate == FixedParts(staticPrompt, injection, input) + EstimateMessages(history[p.historyTurnsTrimmed..]) <= Room(config)
  {
    hide EstimateTokens, EstimateMessages, Contents;
    var staticTokens := EstimateTokens(staticPrompt);
    var dynamicTokens := EstimateTokens(injection);
    var currentInputTokens := EstimateTokens(input.content) + 4;
    var historyBudget := Room(config) - staticTokens - dynamicTokens - currentInputTokens;
    var kept, turnsTrimmed := TrimHistory(history, historyBudget);
    var messages := kept + [input];
    var messageTokens := EstimateMessagesTokens(messages);
    p := Prompt(staticPrompt + injection, messages, staticTokens + dynamicTokens + messageTokens, turnsTrimmed > 0, turnsTrimmed);
    EstimateLast(kept, input);
    EstimateOfConcatenation(staticPrompt, injection);
    EstimateOfConcatenation(p.systemPrompt, Contents(messages));
    EstimateCovers(messages);
    if kept == [] { NoMessages(); }
  }

  lemma NoMessages()
    ensures EstimateMessages([]) == 0
  {
  }
}
