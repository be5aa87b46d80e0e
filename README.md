# financial-analysis-agent: the query agent's own logic, in Dafny

`agent.py` answers questions about a financial report. It loads a FAISS index,
exposes one retrieval tool, `search_financials`, to a LangGraph ReAct agent over
Gemini, and runs an interactive loop on standard input. Almost all of its work
happens inside those libraries. This project models the part the file writes
itself, and proves what that part promises:

- **The exit test** (`user_input.lower() in ["exit", "quit", "q"]`). A line ends
  the session exactly when it spells one of the three words in any mix of case.
  There is no trimming, so `" q"` and `"exit "` are dispatched like any question.
- **Content normalisation.** The last message's content is either a string,
  printed unchanged, or a list of blocks. For a list, the `'text'` values of the
  blocks that have one are joined with `""`. A `'text'` value that is not a
  string makes `str.join` raise `TypeError`, which the turn's `except` prints.
  Extraction distributes over concatenation of block lists, including where the
  error is reported.
- **The retrieval tool.** The page contents of the retrieved chunks are joined
  with a blank line. Chunk `i` sits at a known offset, in the retriever's order,
  and a separator follows every chunk but the last.
- **The interactive loop.** It is an imperative method over a finite sequence of
  input lines. It returns every string the loop itself prints, in order, and
  the lines it dispatched. It dispatches exactly the lines before the first
  exit line, whatever their turns print. A failing turn prints `Error: <msg>`,
  and the next thing written is the next prompt.

Modules:

- `Wrappers` (wrappers.dfy) holds `Result`.
- `Sequences` (sequences.dfy) holds a general fact about concatenation.
- `PyStr` (pystr.dfy) holds the few Python `str` behaviours the file relies on:
  `lower()`, `sep.join` over strings and over arbitrary values, `c * n`,
  `str(n)`, and the `TypeError` message of `str.join`.
- `Agent` (agent.dfy) holds the four pieces above.

Parameters stand in for the libraries and the terminal:

- The retriever is a function from query to documents.
- The agent executor is an `Oracle`, a function from (turn index, line) to an
  outcome: answered with some content, or raised with a message. "Raised"
  covers every exception from `invoke` and from indexing the response
  (agent.py:57-60).
- Standard input is a finite sequence of lines.
- Standard output is the sequence of strings the loop writes to it. `input`
  writes its prompt, and each `print` adds `"\n"`. What the agent prints while
  it runs, such as the tool's trace line, is not part of it.

The loop is stated for any `Turn`, meaning what one dispatched line prints. The
program's own turn is `AgentTurn(agent)`, built from `TurnWrites`.

At end of input, Python's `input()` raises `EOFError`. `except Exception`
catches it, so the loop as written never ends on an input without an exit word
(see Findings). `RunAgent` models the evidently intended loop, where end of
input ends the session after its last prompt. `RunAgentAsWritten` models the
loop as written, cut off after a budget of iterations. agent.py has no handler
of its own for `EOFError`.

## Model

| member | source | states |
|---|---|---|
| PyStr.Lower | agent.py:52 | `lower()` keeps the length of the line |
| PyStr.LowerAt | agent.py:52 | `lower()` maps position by position: character `i` of the result is character `i` of the input, case-mapped |
| Agent.LowerIsWord | agent.py:52 | a line lowers to a lower-case word iff it spells that word letter by letter, each letter as written or in upper case |
| Agent.IsExitCommand | agent.py:52 | a line that ends the session has one to four characters |
| Agent.ExitCommandIff | agent.py:52-54 | a line ends the session iff it spells "exit", "quit" or "q" in any mix of case, with no other characters |
| Agent.ExitCommandExamples | agent.py:52-54 | "exit", "EXIT", "Quit", "q" and "Q" end the session |
| Agent.NotExitCommandExamples | agent.py:52-54 | "Q2", " q" and "exit " do not end the session: nothing is stripped |
| Agent.FinalText | agent.py:60-66 | string content is printed unchanged |
| Agent.TextValues | agent.py:64 | the comprehension takes at most one value per block |
| Agent.TextValuesMembers | agent.py:64 | a value is taken iff some block has it under 'text' (`BlockText` gives one block's part) |
| Agent.TextValuesAppend | agent.py:64 | the comprehension over `a + b` is the comprehension over `a` followed by that over `b` |
| Agent.SingleBlock | agent.py:62-64 | one block contributes its 'text' value if it is a string, raises `TypeError` at item 0 if it is not, and contributes "" without a 'text' key |
| Agent.FinalTextAppend | agent.py:62-64 | extract(a ++ b) == extract(a) + extract(b) when both halves extract |
| Agent.FinalTextAppendFailsLeft | agent.py:62-64 | if `a` raises, `a ++ b` raises the same error |
| Agent.FinalTextAppendFailsRight | agent.py:62-64 | if only `b` raises, `a ++ b` raises `b`'s error, its item position moved past `a`'s text values |
| Agent.NoTextBlocks | agent.py:62-64 | an empty list, or one with no 'text' keys, prints as "" |
| Agent.MixedBlocksExample | agent.py:62-64 | `[{"text":"A"},{"type":"image"},{"text":"B"}]` gives "AB" |
| PyStr.JoinValues | agent.py:64 | `"".join` succeeds iff every item is a string; on failure it names the position and type of an item that is not a string |
| PyStr.JoinValuesFirstError | agent.py:64 | the reported item is the first non-string: every earlier item is a string |
| PyStr.JoinValuesJoins | agent.py:64 | over all-string items, `JoinValues` is `str.join` of their strings |
| PyStr.JoinValuesAppend | agent.py:64 | `"".join` of `u + v` is the join of `u` followed by the join of `v` |
| PyStr.JoinValuesAppendFailsLeft | agent.py:64 | an error in `u` is the error for `u + v` |
| PyStr.JoinValuesAppendFailsRight | agent.py:64 | an error only in `v` is reported for `u + v` at `|u|` plus its position in `v`, with the same type |
| PyStr.JoinEmptySeparatorAppend | agent.py:64 | joining strings with `""` distributes over list concatenation |
| PyStr.JoinAppend | agent.py:28 | `Join` (`sep.join` over strings): joining two non-empty lists puts exactly one separator at the seam |
| PyStr.JoinLength | agent.py:28 | the join is as long as the parts plus one separator between each pair of neighbours |
| PyStr.JoinPartAt | agent.py:28 | part `i` appears in the join at `Offset(i)`, after every earlier part and its separator |
| PyStr.JoinSeparatorAfter | agent.py:28 | every part but the last is followed by the separator |
| Agent.PageContents | agent.py:28 | `[d.page_content for d in docs]`: same length, item `i` is chunk `i`'s text |
| Agent.SearchFinancials | agent.py:25-28 | zero chunks give "", one chunk gives its text unchanged |
| Agent.SearchFinancialsChunkAt | agent.py:27-28 | the result has length sum-of-chunks + 2·(n−1); chunk `i` appears at its offset in retriever order; a blank line follows each chunk but the last |
| PyStr.Repeat | agent.py:69 | `"-" * 50`: exactly `n` characters, each the given one |
| PyStr.Decimal | agent.py:72 | `str(n)`: a non-empty string of decimal digits |
| PyStr.DecimalValue | agent.py:72 | `str(n)` spells `n` with no leading zero, and has a single digit iff `n < 10`, so `str(0)` is "0" |
| PyStr.Truncated | agent.py:72 | `%.80s`: the prefix of the string of length min(its length, 80), so exactly its first 80 characters when it is longer |
| PyStr.JoinErrorMessageIndex | agent.py:72 | `str(e)` for the join's `TypeError` (`JoinErrorMessage`): the item's position can be read back as the digits after "sequence item ", and it ends with the type name cut to 80 characters and " found" |
| Agent.TurnWrites | agent.py:57-72 | a dispatched line prints one or two strings after its prompt |
| Agent.TurnOutput | agent.py:57-72 | a turn prints a single error line iff the agent raised or a 'text' value is not a string; an agent exception is printed as `Error: <msg>`; string content is printed after " AI: " with the rule of 50 dashes under it |
| Agent.BlocksTurnOutput | agent.py:60-72 | for a list of blocks, the turn prints the `""`-join of the 'text' strings with the rule, or one error line naming the position and type of the first value that is not a string |
| Agent.FirstExit | agent.py:46-54 | the first exit line's position is at most the number of lines |
| Agent.FirstExitAt | agent.py:52-54 | up to the first exit line, a line is an exit line iff it is that first one |
| Agent.RunAgent | agent.py:46-72 | exactly the lines before the first exit line are dispatched, in order; none of them is an exit line; the output is `SessionWrites`: the prompts, each turn's output and "Goodbye!" when an exit line is read |
| Agent.SessionEnds | agent.py:46-72 | the session's last writes are the prompt that read the exit line and "Goodbye!", or, at end of input, the unanswered prompt |
| Agent.TurnsWritesPrefix | agent.py:46-72 | later turns only append to what earlier turns wrote |
| Agent.SessionWritesPrefix | agent.py:46-72 | the session's output starts with the first `m` turns' output and the next prompt, for every `m` up to the first exit line |
| Agent.TurnInSession | agent.py:46-72 | every dispatched turn's output is followed by the next prompt |
| Agent.FailedTurnContinues | agent.py:46-72 | a turn whose agent raises prints `Error: <msg>` after its prompt, and the next read's prompt follows |
| Agent.EofErrors | agent.py:49-72 | `n` reads at end of input write `2n` strings, alternately the prompt and "Error: EOF when reading a line" |
| Agent.RunAgentAsWritten | agent.py:46-72 | the loop as written, cut off after `budget` iterations: which lines it dispatched, that it stops only by reading an exit line, and that it wrote `AsWrittenWrites`, which the three rows below characterise |
| Agent.AsWrittenTurns | agent.py:46-72 | up to the first exit line, the as-written loop (`AsWrittenWrites`) writes what the turns write |
| Agent.AsWrittenAfterExit | agent.py:46-72 | after reading an exit line, the as-written loop has written the whole session and writes nothing more |
| Agent.AsWrittenAfterEof | agent.py:49-72 | without an exit line, every iteration after the input ends writes the prompt and "Error: EOF when reading a line" |
| Agent.EndOfInputCounterexample | agent.py:49-72 | on the input `["hello"]`, the loop as written is still running after two iterations, and the second one printed the end-of-input error |

## Left out

- `ingest.py`: the PDF loader, the text splitter, the embedding and the index
  build are library calls with no logic of the file's own.
- Embeddings and FAISS nearest-neighbour ranking (agent.py:20-22, 27) are not
  modelled. The retriever is a parameter, and the `k = 3` configuration only
  constrains that parameter.
- The Gemini model and the ReAct agent (agent.py:40-43, 57) are not modelled.
  They are the `Oracle` parameter, so the agent's own calls to the tool are not
  connected to `SearchFinancials`.
- Out of scope: the `.env` loading and API-key check (agent.py:8-13), the
  startup prints (agent.py:16, 19, 39), the trace print inside
  `search_financials` (agent.py:26), and the `Tool` metadata (agent.py:31-36).
- `KeyboardInterrupt` is not modelled. `except Exception` does not catch it, so
  Ctrl-C ends the program.
- PyStr.Lower: only ASCII letters are case-mapped, so `Lower` keeps the length
  where Python's `lower()` may not ('İ' becomes "i" followed by U+0307). No
  non-ASCII character lowers to a string that completes an exit word, so the
  exit test is unaffected.
- PyStr.Truncated: `%.80s` counts UTF-8 bytes of the type name; the model counts
  characters, which agree for the ASCII names of Python's types.
- Agent.EofMessage: the message of the end-of-input `EOFError` when standard
  input is not a terminal. At a terminal, `input()` raises `EOFError` with an
  empty message, so the loop prints "Error: " instead.
- Agent.FinalText: content is a string or a list of dictionaries. Two cases are
  not modelled:
  - A list item that is itself a string, where `'text' in block` is a substring
    test.
  - Content of any other type, which the f-string would format with `str()`.
- Agent.RunAgentAsWritten: the real loop is unbounded. The model runs it for a
  budget of iterations, and `AsWrittenAfterEof` states what every further
  iteration writes.
- Agent.RunAgent: it is stated for any `Turn`. The program's turn is
  `AgentTurn(agent)`, whose output `TurnOutput` and `BlocksTurnOutput` describe.

## Findings

| source | as written | input that shows it | evidently intended | confidence | as-written member | corrected member |
|---|---|---|---|---|---|---|
| agent.py:49-72 | at end of input `input()` raises `EOFError`; `except Exception` catches it, prints "Error: EOF when reading a line" and loops, so the session never ends | any finite standard input with no exit line, e.g. the single line "hello" piped in | end of input ends the session after the last prompt | not executed | Agent.EndOfInputCounterexample | Agent.RunAgent |
