/** Chat transcript entries and the two flat serializations the bot counts
    tokens over (DungeonMasterGPT.py, `truncate_chat_history` and
    `truncate_progress_summary`). */
module Chat {
  import opened Text

  /** The role tag of a chat-completion message. */
  datatype Role = System | User | Assistant

  function RoleName(r: Role): string
  {
    match r
    case System => "system"
    case User => "user"
    case Assistant => "assistant"
  }

  /** One entry of a channel's chat history: `{"role": ..., "content": ...}`. */
  datatype Turn = Turn(role: Role, content: string)

  /** `f"{entry['role']}: {entry['content']}"`. */
  function RenderTurn(t: Turn): string
  {
    RoleName(t.role) + ": " + t.content
  }

  /** The rendered turns, in order. */
  function RenderTurns(h: seq<Turn>): (lines: seq<string>)
    ensures |lines| == |h|
    ensures forall i :: 0 <= i < |h| ==> lines[i] == RenderTurn(h[i])
  {
    seq(|h|, i requires 0 <= i < |h| => RenderTurn(h[i]))
  }

  /** The chat-history text whose tokens are counted: rendered turns joined
      by one space. */
  function SerializeChat(h: seq<Turn>): string
  {
    Join(" ", RenderTurns(h))
  }

  /** The progress-summary text whose tokens are counted: lines joined by
      one space. */
  function SerializeSummary(lines: seq<string>): string
  {
    Join(" ", lines)
  }
}
