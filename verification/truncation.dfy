/** History truncation (DungeonMasterGPT.py, `truncate_chat_history` and
    `truncate_progress_summary`): drop the oldest entry, re-count the tokens
    of the whole remaining text, and repeat until the count fits the budget.

    The tokenizer is a parameter `tokens`; the Python code uses tiktoken's
    `cl100k_base` encoding, which maps the empty text to zero tokens. Python
    works on a copy of the caller's list (`list(...)`), which in this model is
    simply the immutability of `seq`. */
module Truncation {
  import opened Wrappers
  import opened Text
  import opened Chat

  /** The reference definition: the first suffix, scanning from the whole
      sequence towards the empty one, whose cost is within `budget`.
      `None` is the IndexError of `list.pop(0)` on an empty list, reached
      only when even the empty sequence is over budget. */
  function DropOldest<T(==)>(xs: seq<T>, budget: int, cost: seq<T> -> nat): (r: Option<seq<T>>)
    decreases |xs|
    ensures r.Some? ==> IsSuffix(r.value, xs) && cost(r.value) <= budget
    ensures r.Some? ==> forall k :: 0 <= k < |xs| - |r.value| ==> cost(xs[k..]) > budget
    ensures r.None? <==> forall k :: 0 <= k <= |xs| ==> cost(xs[k..]) > budget
    ensures cost([]) == 0 && budget >= 0 ==> r.Some?
  {
    assert xs[|xs|..] == [];
    if cost(xs) <= budget then Some(xs)
    else if |xs| == 0 then None
    else
      var r := DropOldest(xs[1..], budget, cost);
      assert forall k :: 1 <= k <= |xs| ==> xs[k..] == xs[1..][k - 1..];
      r
  }

  /** The Python `while` loop itself: pop index 0 and recount until the
      count fits. It computes exactly the reference suffix. */
  method DropOldestLoop<T(==)>(xs: seq<T>, budget: int, cost: seq<T> -> nat) returns (r: Option<seq<T>>)
    ensures r == DropOldest(xs, budget, cost)
  {
    var current := xs;
    var count := cost(current);
    while count > budget
      invariant count == cost(current)
      invariant DropOldest(current, budget, cost) == DropOldest(xs, budget, cost)
      decreases |current|
    {
      DropOldestUnfold(current, budget, cost);
      if |current| == 0 {
        return None;
      }
      current := current[1..];
      count := cost(current);
    }
    DropOldestUnfold(current, budget, cost);
    return Some(current);
  }

  /** One step of `DropOldest`: keep a sequence that fits, fail on an empty
      one that does not, and otherwise drop the oldest entry. */
  lemma DropOldestUnfold<T>(xs: seq<T>, budget: int, cost: seq<T> -> nat)
    ensures cost(xs) <= budget ==> DropOldest(xs, budget, cost) == Some(xs)
    ensures cost(xs) > budget && |xs| == 0 ==> DropOldest(xs, budget, cost) == None
    ensures cost(xs) > budget && |xs| > 0 ==> DropOldest(xs, budget, cost) == DropOldest(xs[1..], budget, cost)
  {
  }

  /** Truncating with one budget and then with a tighter one is the same as
      truncating once with the tighter one; with equal budgets this is
      idempotence. */
  lemma {:induction false} DropOldestTighten<T>(xs: seq<T>, wide: int, narrow: int, cost: seq<T> -> nat)
    requires narrow <= wide
    requires DropOldest(xs, wide, cost).Some?
    ensures DropOldest(DropOldest(xs, wide, cost).value, narrow, cost) == DropOldest(xs, narrow, cost)
    decreases |xs|
  {
    if cost(xs) > wide {
      DropOldestTighten(xs[1..], wide, narrow, cost);
    }
  }

  /** `history` is the longest tail of `full` whose serialization fits
      `budget`. */
  predicate LongestFittingHistory(history: seq<Turn>, full: seq<Turn>, budget: int, tokens: string -> nat)
  {
    && IsSuffix(history, full)
    && tokens(SerializeChat(history)) <= budget
    && forall k :: 0 <= k < |full| - |history| ==> tokens(SerializeChat(full[k..])) > budget
  }

  /** No tail of `full`, not even the empty one, fits `budget`. */
  predicate NoHistoryFits(full: seq<Turn>, budget: int, tokens: string -> nat)
  {
    forall k :: 0 <= k <= |full| ==> tokens(SerializeChat(full[k..])) > budget
  }

  /** `kept` is the longest tail of `lines` whose space-joined text fits
      `budget`. */
  predicate LongestFittingSummary(kept: seq<string>, lines: seq<string>, budget: int, tokens: string -> nat)
  {
    && IsSuffix(kept, lines)
    && tokens(SerializeSummary(kept)) <= budget
    && forall k :: 0 <= k < |lines| - |kept| ==> tokens(SerializeSummary(lines[k..])) > budget
  }

  /** No tail of `lines`, not even the empty one, fits `budget`. */
  predicate NoSummaryFits(lines: seq<string>, budget: int, tokens: string -> nat)
  {
    forall k :: 0 <= k <= |lines| ==> tokens(SerializeSummary(lines[k..])) > budget
  }

  /** `truncate_chat_history(chat_history_list, max_tokens)`. */
  function TruncateChatHistory(history: seq<Turn>, maxTokens: int, tokens: string -> nat): (r: Option<seq<Turn>>)
    ensures r.Some? ==> LongestFittingHistory(r.value, history, maxTokens, tokens)
    ensures tokens(SerializeChat(history)) <= maxTokens ==> r == Some(history)
    ensures r.None? <==> NoHistoryFits(history, maxTokens, tokens)
    ensures tokens("") == 0 && maxTokens >= 0 ==> r.Some?
  {
    var cost := (h: seq<Turn>) => tokens(SerializeChat(h));
    assert SerializeChat([]) == "" by { assert RenderTurns([]) == []; }
    assert cost([]) == tokens("");
    DropOldest(history, maxTokens, cost)
  }

  /** `truncate_progress_summary(progress_summary_list, max_tokens)`. */
  function TruncateProgressSummary(lines: seq<string>, maxTokens: int, tokens: string -> nat): (r: Option<seq<string>>)
    ensures r.Some? ==> LongestFittingSummary(r.value, lines, maxTokens, tokens)
    ensures tokens(SerializeSummary(lines)) <= maxTokens ==> r == Some(lines)
    ensures r.None? <==> NoSummaryFits(lines, maxTokens, tokens)
    ensures tokens("") == 0 && maxTokens >= 0 ==> r.Some?
  {
    var cost := (l: seq<string>) => tokens(SerializeSummary(l));
    assert SerializeSummary([]) == "";
    assert cost([]) == tokens("");
    DropOldest(lines, maxTokens, cost)
  }

  /** Truncating an already truncated history changes nothing. */
  lemma TruncateChatHistoryIdempotent(history: seq<Turn>, maxTokens: int, tokens: string -> nat)
    requires TruncateChatHistory(history, maxTokens, tokens).Some?
    ensures var once := TruncateChatHistory(history, maxTokens, tokens).value;
            TruncateChatHistory(once, maxTokens, tokens) == Some(once)
  {
  }

  /** Truncating an already truncated summary changes nothing. */
  lemma TruncateProgressSummaryIdempotent(lines: seq<string>, maxTokens: int, tokens: string -> nat)
    requires TruncateProgressSummary(lines, maxTokens, tokens).Some?
    ensures var once := TruncateProgressSummary(lines, maxTokens, tokens).value;
            TruncateProgressSummary(once, maxTokens, tokens) == Some(once)
  {
  }

  /** A single summary line that alone exceeds the budget is popped as well:
      the result is the empty list, not the line. */
  lemma TruncateProgressSummaryLoneOversize(line: string, maxTokens: int, tokens: string -> nat)
    requires tokens("") == 0 && maxTokens >= 0
    requires tokens(line) > maxTokens
    ensures TruncateProgressSummary([line], maxTokens, tokens) == Some([])
  {
    assert SerializeSummary([line]) == line;
  }

  /** The same holds for a single chat turn. */
  lemma TruncateChatHistoryLoneOversize(turn: Turn, maxTokens: int, tokens: string -> nat)
    requires tokens("") == 0 && maxTokens >= 0
    requires tokens(RenderTurn(turn)) > maxTokens
    ensures TruncateChatHistory([turn], maxTokens, tokens) == Some([])
  {
    assert SerializeChat([turn]) == RenderTurn(turn);
    assert SerializeChat([]) == "";
  }
}
