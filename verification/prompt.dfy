/** The request `generate_response` sends for one channel: which budgets
    and temperature apply, the order of the messages, and how many tokens
    are left for the reply. */
module Prompt {
  import opened Wrappers
  import opened Text
  import opened Chat
  import opened Truncation

  const DefaultChatbotName := "DM"
  const DefaultPrimingPromptBase := "You are a veteran Dungeon Master. You speak with the flair of a bestselling fantasy author. You run your campaigns according to the Fifth Edition of the Dungeons and Dragons Players' Handbook, ensuring that turns and dice rolls are performed according to the rules. Here are the details of your campaign so far:"
  const DefaultSummaryPrimingPrompt := "Your purpose is to summarise lists of Dungeons and Dragons chat inputs according to the following specific rules."
  const DefaultCampaignOverview := "No campaign overview yet."
  const DefaultTemperature: real := 0.8
  const SummaryTemperature: real := 0.5

  /** Token budgets of the two kinds of call. */
  const SummaryProgressBudget := 2500
  const SummaryHistoryBudget := 1000
  const ChatProgressBudget := 200
  const ChatHistoryBudget := 2000

  /** The model's context window and the margin kept free of it. */
  const ContextWindow := 4096
  const SafetyMargin := 200

  const HistoryHeader := "Chat history: Here is the most recent chat history to help you determine the state of play.\n\n"
  const OverviewPreamble := "Campaign overview: Here is an outline of the campaign the players are undertaking. These events may not have occured yet and it is important you do not spoil the campaign by accidentally revealing the events to the players early. Reference the 'Campaign progress:' and 'Chat history:' sections to determine the events that have already occurred and the current state of play."
  const ProgressPreamble := "Campaign progress: Here is the most recent progress the party has made in the campaign."

  /** A reply to a player, or the progress-summary call after it. */
  datatype CallKind = PlayerReply | ProgressSummary

  /** The per-channel state `generate_response` reads. */
  datatype Channel = Channel(
    chatbotName: string,
    primingPromptBase: string,
    summaryPrimingPrompt: string,
    campaignOverview: string,
    progressSummary: seq<string>,
    chatHistory: seq<Turn>,
    temperature: real)

  /** A channel seen for the first time: the bot is called "DM", both
      priming prompts are the defaults, the overview is a placeholder, the
      summary and history are empty and the temperature is 0.8. */
  function NewChannel(): (ch: Channel)
    ensures ch.chatbotName == "DM"
    ensures ch.primingPromptBase == DefaultPrimingPromptBase
    ensures ch.summaryPrimingPrompt == DefaultSummaryPrimingPrompt
    ensures ch.campaignOverview == "No campaign overview yet."
    ensures ch.progressSummary == [] && ch.chatHistory == []
    ensures ch.temperature == 0.8
  {
    Channel(DefaultChatbotName, DefaultPrimingPromptBase, DefaultSummaryPrimingPrompt,
            DefaultCampaignOverview, [], [], DefaultTemperature)
  }

  /** What is passed to the chat-completion call. */
  datatype Request = Request(messages: seq<Turn>, maxTokens: int, temperature: real)

  /** Why no request is sent: a truncation popped from an empty list, or
      no room is left for the reply. */
  datatype PromptError = ProgressUnfittable | HistoryUnfittable | NoResponseRoom

  function ProgressBudget(kind: CallKind): nat
  {
    if kind == ProgressSummary then SummaryProgressBudget else ChatProgressBudget
  }

  function HistoryBudget(kind: CallKind): nat
  {
    if kind == ProgressSummary then SummaryHistoryBudget else ChatHistoryBudget
  }

  function CallTemperature(kind: CallKind, ch: Channel): real
  {
    if kind == ProgressSummary then SummaryTemperature else ch.temperature
  }

  const PartyHeader := "\n\nParty details:\n"

  /** The priming prompt the system message starts with. */
  function PrimingPrompt(kind: CallKind, ch: Channel): string
  {
    if kind == ProgressSummary then ch.summaryPrimingPrompt else ch.primingPromptBase
  }

  /** The system message. `party` is the rendered character roster and
      `shownProgress` the printed form of the truncated summary list. It
      opens with the call's priming prompt and the party details, ends with
      the shown progress, and a player reply's message carries the campaign
      overview in between. */
  function SystemMessage(kind: CallKind, ch: Channel, party: string, shownProgress: string): (r: string)
    ensures PrimingPrompt(kind, ch) + PartyHeader + party <= r
    ensures IsSuffix(shownProgress, r)
    ensures kind == PlayerReply ==> Contains(r, ch.campaignOverview)
  {
    var head := PrimingPrompt(kind, ch) + PartyHeader + party;
    if kind == ProgressSummary then
      var mid := "\n\nCampaign progress:\n\n";
      Layout(head, mid, "", "", shownProgress);
      head + mid + "" + "" + shownProgress
    else
      var mid := "\n\n" + OverviewPreamble + "\n\n";
      var tail := "\n\n" + ProgressPreamble + "\n\n";
      Layout(head, mid, ch.campaignOverview, tail, shownProgress);
      head + mid + ch.campaignOverview + tail + shownProgress
  }

  /** Where the pieces of a concatenation end up. */
  lemma Layout(head: string, mid: string, inner: string, tail: string, last: string)
    ensures var r := head + mid + inner + tail + last;
      && head <= r
      && IsSuffix(last, r)
      && OccursAt(r, inner, |head| + |mid|)
      && Contains(r, inner)
  {
    var r := head + mid + inner + tail + last;
    var j := |head| + |mid|;
    assert r[..|head|] == head;
    assert r[|r| - |last|..] == last;
    assert r[j..j + |inner|] == inner;
    assert OccursAt(r, inner, j);
  }

  /** The message list in the order it is sent. */
  function Messages(system: string, history: seq<Turn>, prompt: string): (m: seq<Turn>)
    ensures |m| == |history| + 3
    ensures m[0] == Turn(System, system)
    ensures m[1] == Turn(Assistant, HistoryHeader)
    ensures m[2..|m| - 1] == history
    ensures m[|m| - 1] == Turn(User, prompt)
  {
    [Turn(System, system), Turn(Assistant, HistoryHeader)] + history + [Turn(User, prompt)]
  }

  /** `4096 - input_tokens - 200`, exactly as computed: nothing keeps it
      positive. */
  function ResponseBudget(inputTokens: nat): (r: int)
    ensures r + inputTokens + SafetyMargin == ContextWindow
  {
    ContextWindow - inputTokens - SafetyMargin
  }

  /** Any prompt of 3896 tokens or more leaves a reply budget of zero or
      less, which the completion call rejects. */
  lemma ResponseBudgetNotPositive(inputTokens: nat)
    requires inputTokens >= ContextWindow - SafetyMargin
    ensures ResponseBudget(inputTokens) <= 0
  {
  }

  /** The reply budget with the missing check: positive, or an error. */
  function CheckedResponseBudget(inputTokens: nat): (r: Result<nat, PromptError>)
    ensures r.Ok? <==> inputTokens + SafetyMargin < ContextWindow
    ensures r.Ok? ==> r.value > 0 && r.value + inputTokens + SafetyMargin == ContextWindow
    ensures r.Err? ==> r.error == NoResponseRoom
  {
    var budget := ResponseBudget(inputTokens);
    if budget <= 0 then Err(NoResponseRoom) else Ok(budget)
  }

  /** The request for already truncated parts, as the code builds it: the
      messages in their order and the reply budget `4096 - input - 200`,
      whatever its sign. */
  function BuildRequest(kind: CallKind, ch: Channel, prompt: string, system: string,
                        history: seq<Turn>, tokens: string -> nat): (r: Request)
    ensures r.messages == Messages(system, history, prompt)
    ensures tokens(SerializeChat(r.messages)) + r.maxTokens + SafetyMargin == ContextWindow
    ensures r.temperature == (if kind == ProgressSummary then 0.5 else ch.temperature)
  {
    var m := Messages(system, history, prompt);
    Request(m, ResponseBudget(tokens(SerializeChat(m))), CallTemperature(kind, ch))
  }

  /** The two truncations, summary first: the shown summary lines and the
      kept history, or the truncation that popped from an empty list. */
  function TruncatedParts(kind: CallKind, ch: Channel, tokens: string -> nat): (r: Result<(seq<string>, seq<Turn>), PromptError>)
    ensures r == Err(ProgressUnfittable) <==> NoSummaryFits(ch.progressSummary, ProgressBudget(kind), tokens)
    ensures r == Err(HistoryUnfittable) <==>
      !NoSummaryFits(ch.progressSummary, ProgressBudget(kind), tokens) && NoHistoryFits(ch.chatHistory, HistoryBudget(kind), tokens)
    ensures r.Err? ==> r.error != NoResponseRoom
    ensures r.Ok? ==> TruncateProgressSummary(ch.progressSummary, ProgressBudget(kind), tokens) == Some(r.value.0)
    ensures r.Ok? ==> LongestFittingHistory(r.value.1, ch.chatHistory, HistoryBudget(kind), tokens)
  {
    match TruncateProgressSummary(ch.progressSummary, ProgressBudget(kind), tokens)
    case None => Err(ProgressUnfittable)
    case Some(shown) =>
      match TruncateChatHistory(ch.chatHistory, HistoryBudget(kind), tokens)
      case None => Err(HistoryUnfittable)
      case Some(history) =>
        assert LongestFittingHistory(history, ch.chatHistory, HistoryBudget(kind), tokens);
        Ok((shown, history))
  }

  /** `call_openai_api` as written: truncate the summary and the history to
      the call's budgets, build the messages, count their tokens and size
      the reply. The summary is truncated first, so its failure is reported
      first. Once both truncations succeed a request is always built, with
      a reply budget that may be zero or negative. */
  function AssembleRequest(kind: CallKind, ch: Channel, prompt: string, party: string,
                           showList: seq<string> -> string, tokens: string -> nat): (r: Result<Request, PromptError>)
    ensures r == Err(ProgressUnfittable) <==> NoSummaryFits(ch.progressSummary, ProgressBudget(kind), tokens)
    ensures r == Err(HistoryUnfittable) <==>
      !NoSummaryFits(ch.progressSummary, ProgressBudget(kind), tokens) && NoHistoryFits(ch.chatHistory, HistoryBudget(kind), tokens)
    ensures r.Err? ==> r.error != NoResponseRoom
    ensures r.Ok? ==>
      var m := r.value.messages;
      var shown := TruncateProgressSummary(ch.progressSummary, ProgressBudget(kind), tokens);
      && |m| >= 3
      && shown.Some?
      && m[0] == Turn(System, SystemMessage(kind, ch, party, showList(shown.value)))
      && m[1] == Turn(Assistant, HistoryHeader)
      && LongestFittingHistory(m[2..|m| - 1], ch.chatHistory, HistoryBudget(kind), tokens)
      && m[|m| - 1] == Turn(User, prompt)
      && tokens(SerializeChat(m)) + r.value.maxTokens + SafetyMargin == ContextWindow
      && r.value.temperature == (if kind == ProgressSummary then 0.5 else ch.temperature)
  {
    match TruncatedParts(kind, ch, tokens)
    case Err(e) => Err(e)
    case Ok((shown, history)) =>
      Ok(BuildRequest(kind, ch, prompt, SystemMessage(kind, ch, party, showList(shown)), history, tokens))
  }

  /** As written, a request whose messages count 3896 tokens or more is
      sent with a reply budget of zero or less. */
  lemma AssembleRequestBudgetNotPositive(kind: CallKind, ch: Channel, prompt: string, party: string,
                                         showList: seq<string> -> string, tokens: string -> nat)
    ensures var r := AssembleRequest(kind, ch, prompt, party, showList, tokens);
      r.Ok? && tokens(SerializeChat(r.value.messages)) >= ContextWindow - SafetyMargin ==> r.value.maxTokens <= 0
  {
  }

  /** A tokenizer for which any non-empty text fills the whole window. */
  function WindowFilling(s: string): nat
  {
    if |s| == 0 then 0 else ContextWindow
  }

  /** A concrete overflow: with `WindowFilling` every truncation succeeds,
      yet the code sends the request with a reply budget of -200. */
  lemma AssembleRequestOverflowExample(kind: CallKind, ch: Channel, prompt: string, party: string,
                                       showList: seq<string> -> string)
    ensures var r := AssembleRequest(kind, ch, prompt, party, showList, WindowFilling);
      r.Ok? && r.value.maxTokens == -SafetyMargin
  {
    assert WindowFilling("") == 0;
    AssembleRequestOnlyOverflows(kind, ch, prompt, party, showList, WindowFilling);
    var r := AssembleRequest(kind, ch, prompt, party, showList, WindowFilling);
    JoinOfSeveral(" ", RenderTurns(r.value.messages));
  }

  /** The assembly with the missing check: a request whose reply budget
      would not be positive is not sent. */
  function CheckedAssembleRequest(kind: CallKind, ch: Channel, prompt: string, party: string,
                                  showList: seq<string> -> string, tokens: string -> nat): (r: Result<Request, PromptError>)
    ensures var asWritten := AssembleRequest(kind, ch, prompt, party, showList, tokens);
      && (r == Err(NoResponseRoom) <==> asWritten.Ok? && asWritten.value.maxTokens <= 0)
      && (asWritten.Err? ==> r == asWritten)
      && (r.Ok? ==> asWritten.Ok? && r.value == asWritten.value)
    ensures r.Ok? ==>
      && r.value.maxTokens > 0
      && tokens(SerializeChat(r.value.messages)) + r.value.maxTokens + SafetyMargin == ContextWindow
  {
    match AssembleRequest(kind, ch, prompt, party, showList, tokens)
    case Err(e) => Err(e)
    case Ok(req) =>
      match CheckedResponseBudget(tokens(SerializeChat(req.messages)))
      case Err(e) => Err(e)
      case Ok(budget) => Ok(req.(maxTokens := budget))
  }

  /** With a tokenizer that counts nothing in the empty string, both
      truncations succeed for either kind of call: the code always sends a
      request, and with the reply-budget check the only refusal is a prompt
      too long to leave room for the reply. */
  lemma AssembleRequestOnlyOverflows(kind: CallKind, ch: Channel, prompt: string, party: string,
                                     showList: seq<string> -> string, tokens: string -> nat)
    requires tokens("") == 0
    ensures AssembleRequest(kind, ch, prompt, party, showList, tokens).Ok?
    ensures var r := CheckedAssembleRequest(kind, ch, prompt, party, showList, tokens);
      r.Ok? || r == Err(NoResponseRoom)
  {
  }
}
