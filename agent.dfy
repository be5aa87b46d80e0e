/**
  The logic agent.py writes itself around its libraries: the exit-word test,
  the normalisation of the model's final content into printed text, the
  retrieval tool's joining of chunks, and the interactive turn loop.

  The retriever (a FAISS index behind HuggingFace embeddings), the agent
  executor (a LangGraph ReAct agent over Gemini) and standard input are not
  modelled; they are parameters: a function from query to retrieved documents,
  a function from turn to agent outcome, and a finite sequence of input lines.
  Standard output is the sequence of strings written to it, in order.
 */
module Agent {
  import opened Wrappers
  import opened PyStr
  import opened Sequences

  // ---------------------------------------------------------------------------
  // Exit words

  /** The words that end the session, in lower case. */
  const ExitWords: seq<string> := ["exit", "quit", "q"]

  /** `user_input.lower() in ["exit", "quit", "q"]`: exact membership, no trimming. */
  predicate IsExitCommand(line: string)
    ensures IsExitCommand(line) ==> 1 <= |line| <= 4
  {
    Lower(line) in ExitWords
  }

  /**
    `line` spells the lower-case ASCII word `word` letter by letter, each letter
    either as written or in upper case.
   */
  ghost predicate SpelledAs(line: string, word: string)
  {
    && |line| == |word|
    && forall i :: 0 <= i < |word| ==> line[i] == word[i] || line[i] as int == word[i] as int - 32
  }

  lemma {:induction false} LowerIsWord(line: string, word: string)
    requires forall i :: 0 <= i < |word| ==> 'a' <= word[i] <= 'z'
    ensures Lower(line) == word <==> SpelledAs(line, word)
  {
    var low := Lower(line);
    if |line| == |word| {
      forall i | 0 <= i < |word|
        ensures low[i] == word[i] <==> line[i] == word[i] || line[i] as int == word[i] as int - 32
      {
        LowerAt(line, i);
      }
      if SpelledAs(line, word) {
        assert low == word;
      }
    }
  }

  /**
    A line ends the session exactly when it is "exit", "quit" or "q" in any
    mix of upper and lower case, and nothing else: no surrounding spaces, no
    extra characters.
   */
  lemma {:induction false} ExitCommandIff(line: string)
    ensures IsExitCommand(line) <==>
      SpelledAs(line, "exit") || SpelledAs(line, "quit") || SpelledAs(line, "q")
  {
    LowerIsWord(line, "exit");
    LowerIsWord(line, "quit");
    LowerIsWord(line, "q");
  }

  /** Spellings that end the session: any mix of cases of an exit word. */
  lemma ExitCommandExamples()
    ensures IsExitCommand("exit") && IsExitCommand("EXIT") && IsExitCommand("Quit")
    ensures IsExitCommand("q") && IsExitCommand("Q")
  {
    ExitCommandIff("exit");
    ExitCommandIff("EXIT");
    ExitCommandIff("Quit");
    ExitCommandIff("q");
    ExitCommandIff("Q");
  }

  /** Lines that do not end the session: the input is not stripped, so spaces count. */
  lemma NotExitCommandExamples()
    ensures !IsExitCommand("Q2") && !IsExitCommand(" q") && !IsExitCommand("exit ")
  {
  }

  // ---------------------------------------------------------------------------
  // Normalising the model's final content

  /** One content block: a dictionary from keys to Python values. */
  type Block = map<string, Value>

  /** `response['messages'][-1].content`: a plain string or a list of blocks. */
  datatype Content = Text(text: string) | Blocks(blocks: seq<Block>)

  /** What one block contributes to the comprehension: its 'text' value, if it has one. */
  function BlockText(block: Block): seq<Value>
  {
    if "text" in block then [block["text"]] else []
  }

  /** `[block['text'] for block in raw_content if 'text' in block]`. */
  function TextValues(blocks: seq<Block>): (r: seq<Value>)
    ensures |r| <= |blocks|
  {
    if blocks == [] then [] else BlockText(blocks[0]) + TextValues(blocks[1..])
  }

  /** The values taken are exactly the 'text' values of the blocks that have one. */
  lemma {:induction false} TextValuesMembers(blocks: seq<Block>, v: Value)
    ensures v in TextValues(blocks) <==>
      exists i :: 0 <= i < |blocks| && "text" in blocks[i] && blocks[i]["text"] == v
  {
    if blocks != [] {
      var rest := blocks[1..];
      TextValuesMembers(rest, v);
      if v in TextValues(rest) {
        var i :| 0 <= i < |rest| && "text" in rest[i] && rest[i]["text"] == v;
        assert blocks[i + 1] == rest[i];
      }
      if exists i :: 0 <= i < |blocks| && "text" in blocks[i] && blocks[i]["text"] == v {
        var i :| 0 <= i < |blocks| && "text" in blocks[i] && blocks[i]["text"] == v;
        if i > 0 {
          assert rest[i - 1] == blocks[i];
        }
      }
    }
  }

  /** The text printed after " AI: ", or the error `"".join` raises. */
  function FinalText(content: Content): (r: Result<string, JoinError>)
    ensures content.Text? ==> r == Success(content.text)
  {
    match content
    case Text(s) => Success(s)
    case Blocks(blocks) => JoinValues("", TextValues(blocks))
  }

  lemma {:induction false} TextValuesAppend(a: seq<Block>, b: seq<Block>)
    ensures TextValues(a + b) == TextValues(a) + TextValues(b)
  {
    if a == [] {
      assert a + b == b;
    } else {
      assert (a + b)[0] == a[0];
      assert (a + b)[1..] == a[1..] + b;
      calc {
        TextValues(a + b);
        BlockText(a[0]) + TextValues(a[1..] + b);
        { TextValuesAppend(a[1..], b); }
        BlockText(a[0]) + (TextValues(a[1..]) + TextValues(b));
        TextValues(a) + TextValues(b);
      }
    }
  }

  /** A single block contributes its 'text' value if it has one, and nothing otherwise. */
  lemma {:induction false} SingleBlock(block: Block)
    ensures "text" !in block ==> FinalText(Blocks([block])) == Success("")
    ensures "text" in block && block["text"].Str? ==> FinalText(Blocks([block])) == Success(block["text"].s)
    ensures "text" in block && block["text"].NonStr? ==>
      FinalText(Blocks([block])) == Failure(ItemNotStr(0, block["text"].typeName))
  {
  }

  /**
    Extraction distributes over concatenation of block lists: when both
    halves extract, the whole extracts to the text of `a` followed by that of `b`.
   */
  lemma {:induction false} FinalTextAppend(a: seq<Block>, b: seq<Block>)
    requires FinalText(Blocks(a)).Success? && FinalText(Blocks(b)).Success?
    ensures FinalText(Blocks(a + b)) == Success(FinalText(Blocks(a)).value + FinalText(Blocks(b)).value)
  {
    TextValuesAppend(a, b);
    JoinValuesAppend(TextValues(a), TextValues(b));
  }

  /** A block list whose extraction raises makes any longer list raise the same error. */
  lemma {:induction false} FinalTextAppendFailsLeft(a: seq<Block>, b: seq<Block>)
    requires FinalText(Blocks(a)).Failure?
    ensures FinalText(Blocks(a + b)) == FinalText(Blocks(a))
  {
    TextValuesAppend(a, b);
    JoinValuesAppendFailsLeft(TextValues(a), TextValues(b));
  }

  /**
    When only the second half raises, the whole raises the same error, its item
    position shifted past the text values of the first half.
   */
  lemma {:induction false} FinalTextAppendFailsRight(a: seq<Block>, b: seq<Block>)
    requires FinalText(Blocks(a)).Success? && FinalText(Blocks(b)).Failure?
    ensures FinalText(Blocks(a + b)) ==
      Failure(ItemNotStr(|TextValues(a)| + FinalText(Blocks(b)).error.index, FinalText(Blocks(b)).error.typeName))
  {
    var u, v := TextValues(a), TextValues(b);
    TextValuesAppend(a, b);
    assert FinalText(Blocks(a + b)) == JoinValues("", u + v);
    assert FinalText(Blocks(b)) == JoinValues("", v);
    JoinValuesAppendFailsRight(u, v);
  }

  /** An empty list, or one whose blocks have no 'text' key, prints as "". */
  lemma {:induction false} NoTextBlocks(blocks: seq<Block>)
    requires forall i :: 0 <= i < |blocks| ==> "text" !in blocks[i]
    ensures FinalText(Blocks(blocks)) == Success("")
  {
    if blocks != [] {
      NoTextBlocks(blocks[1..]);
      SingleBlock(blocks[0]);
      assert blocks == [blocks[0]] + blocks[1..];
      FinalTextAppend([blocks[0]], blocks[1..]);
    }
  }

  /** The example of a text block, an image block and a text block. */
  lemma MixedBlocksExample()
    ensures FinalText(Blocks([map["text" := Str("A")], map["type" := Str("image")], map["text" := Str("B")]]))
      == Success("AB")
  {
    var a, img, b := map["text" := Str("A")], map["type" := Str("image")], map["text" := Str("B")];
    SingleBlock(a);
    SingleBlock(img);
    SingleBlock(b);
    assert [a, img, b] == [a, img] + [b];
    assert [a, img] == [a] + [img];
    FinalTextAppend([a], [img]);
    assert "A" + "" == "A";
    FinalTextAppend([a, img], [b]);
    assert "A" + "B" == "AB";
  }

  // ---------------------------------------------------------------------------
  // The retrieval tool

  /** A retrieved chunk; only its text is used. */
  datatype Document = Document(pageContent: string)

  /** `retriever.invoke(query)`: the chunks ranked for a query (k = 3 in agent.py). */
  type Retriever = string -> seq<Document>

  const ChunkSeparator: string := "\n\n"

  function PageContents(docs: seq<Document>): (r: seq<string>)
    ensures |r| == |docs|
    ensures forall i :: 0 <= i < |docs| ==> r[i] == docs[i].pageContent
  {
    seq(|docs|, i requires 0 <= i < |docs| => docs[i].pageContent)
  }

  /** `search_financials(query)`: the retrieved chunk texts, blank-line separated. */
  function SearchFinancials(retrieve: Retriever, query: string): (r: string)
    ensures |retrieve(query)| == 0 ==> r == ""
    ensures |retrieve(query)| == 1 ==> r == retrieve(query)[0].pageContent
  {
    Join(ChunkSeparator, PageContents(retrieve(query)))
  }

  /**
    The tool result lists the retrieved chunks in the retriever's order: chunk
    `i` starts at the total length of the chunks before it plus two characters
    per separator, and a blank line follows every chunk but the last. The
    result is exactly as long as the chunks and separators together.
   */
  lemma {:induction false} SearchFinancialsChunkAt(retrieve: Retriever, query: string, i: nat)
    requires i < |retrieve(query)|
    ensures var r, parts := SearchFinancials(retrieve, query), PageContents(retrieve(query));
      && |r| == TotalLength(parts) + (|parts| - 1) * 2
      && Offset(ChunkSeparator, parts, i) + |parts[i]| <= |r|
      && r[Offset(ChunkSeparator, parts, i)..Offset(ChunkSeparator, parts, i) + |parts[i]|]
         == retrieve(query)[i].pageContent
      && (i + 1 < |parts| ==>
            && Offset(ChunkSeparator, parts, i) + |parts[i]| + 2 <= |r|
            && r[Offset(ChunkSeparator, parts, i) + |parts[i]|..Offset(ChunkSeparator, parts, i) + |parts[i]| + 2]
               == "\n\n")
  {
    var parts := PageContents(retrieve(query));
    JoinLength(ChunkSeparator, parts);
    JoinPartAt(ChunkSeparator, parts, i);
    if i + 1 < |parts| {
      JoinSeparatorAfter(ChunkSeparator, parts, i);
    }
  }

  // ---------------------------------------------------------------------------
  // The interactive loop

  /** What the agent executor does with one dispatched line: answers, or raises. */
  datatype AgentOutcome = Answered(content: Content) | Raised(message: string)

  /** The agent, per turn: the outcome of dispatching input line `i`, `line`. */
  type Oracle = (nat, string) -> AgentOutcome

  /** Written by `input("\nUse > ")` before each read. */
  const Prompt: string := "\nUse > "
  const Goodbye: string := "Goodbye!\n"

  /** `print(f"Error: {e}")`. */
  function ErrorLine(message: string): string
  {
    "Error: " + message + "\n"
  }

  /** What `str(e)` is for the `EOFError` that `input()` raises at end of input. */
  const EofMessage: string := "EOF when reading a line"

  /** `print("-" * 50)`: the rule under every answer. */
  const Rule: string := Repeat('-', 50) + "\n"

  /**
    The body of the `try` after the exit test, with its `except` clause: what a
    dispatched line prints after its prompt. The agent's outcome is normalised
    and printed after " AI: " with the rule under it; an exception from the
    agent, or the `TypeError` of the join, is printed as one error line instead.
   */
  function TurnWrites(outcome: AgentOutcome): (r: seq<string>)
    ensures 1 <= |r| <= 2
  {
    match outcome
    case Raised(message) => [ErrorLine(message)]
    case Answered(content) =>
      match FinalText(content)
      case Success(text) => [" AI: " + text + "\n", Rule]
      case Failure(e) => [ErrorLine(JoinErrorMessage(e))]
  }

  /**
    A turn prints a single error line exactly when the agent raised or a
    block's 'text' value is not a string; an exception from the agent is
    printed as it is, and string content is printed unchanged with the rule
    under it.
   */
  lemma {:induction false} TurnOutput(outcome: AgentOutcome)
    ensures |TurnWrites(outcome)| == 1 <==>
      outcome.Raised? || (outcome.content.Blocks? && !AllStr(TextValues(outcome.content.blocks)))
    ensures outcome.Raised? ==> TurnWrites(outcome) == [ErrorLine(outcome.message)]
    ensures outcome.Answered? && outcome.content.Text? ==>
      TurnWrites(outcome) == [" AI: " + outcome.content.text + "\n", Rule]
  {
  }

  /**
    For a list of blocks, the turn prints the join of the 'text' values with
    the rule under it when all of them are strings, and otherwise one error
    line naming the first value that is not a string, by position and type.
   */
  lemma {:induction false} BlocksTurnOutput(blocks: seq<Block>)
    ensures AllStr(TextValues(blocks)) ==>
      TurnWrites(Answered(Blocks(blocks))) == [" AI: " + Join("", Strings(TextValues(blocks))) + "\n", Rule]
    ensures !AllStr(TextValues(blocks)) ==>
      exists k :: && 0 <= k < |TextValues(blocks)|
                  && TextValues(blocks)[k].NonStr?
                  && (forall j :: 0 <= j < k ==> TextValues(blocks)[j].Str?)
                  && TurnWrites(Answered(Blocks(blocks)))
                     == [ErrorLine(JoinErrorMessage(ItemNotStr(k, TextValues(blocks)[k].typeName)))]
  {
    var values := TextValues(blocks);
    if AllStr(values) {
      JoinValuesJoins("", values);
    } else {
      var e := JoinValues("", values).error;
      forall j | 0 <= j < e.index
        ensures values[j].Str?
      {
        JoinValuesFirstError("", values, j);
      }
      assert TurnWrites(Answered(Blocks(blocks))) == [ErrorLine(JoinErrorMessage(ItemNotStr(e.index, values[e.index].typeName)))];
    }
  }

  /** Index of the first exit line, or `|lines|` when there is none. */
  function FirstExit(lines: seq<string>): (k: nat)
    ensures k <= |lines|
  {
    if lines == [] then 0
    else if IsExitCommand(lines[0]) then 0
    else 1 + FirstExit(lines[1..])
  }

  /**
    Reading up to the first exit line: a line at or before it is an exit line
    exactly when it is the first exit line, so no line before it ends the session.
   */
  lemma {:induction false} FirstExitAt(lines: seq<string>, i: nat)
    requires i <= FirstExit(lines) && i < |lines|
    ensures IsExitCommand(lines[i]) <==> i == FirstExit(lines)
  {
    if i > 0 {
      FirstExitAt(lines[1..], i - 1);
    }
  }

  /**
    What the `try` block and its `except` clause print for the `i`-th
    dispatched line `line`. The loop is stated for any turn; the program's
    own turn is `AgentTurn`.
   */
  type Turn = (nat, string) -> seq<string>

  /** The program's turn: what `TurnWrites` prints for the agent's outcome on the line. */
  function AgentTurn(agent: Oracle): Turn
  {
    (i: nat, line: string) => TurnWrites(agent(i, line))
  }

  /** Everything written by the first `n` turns, each dispatched: prompt, then the turn's output. */
  function TurnsWrites(lines: seq<string>, turn: Turn, n: nat): seq<string>
    requires n <= |lines|
  {
    if n == 0 then []
    else TurnsWrites(lines, turn, n - 1) + [Prompt] + turn(n - 1, lines[n - 1])
  }

  /**
    The whole session: every line before the first exit line is dispatched,
    then one more prompt, answered by the exit line (which prints "Goodbye!")
    or by the end of input (which ends the session silently).
   */
  function SessionWrites(lines: seq<string>, turn: Turn): seq<string>
  {
    var k := FirstExit(lines);
    TurnsWrites(lines, turn, k) + (if k < |lines| then [Prompt, Goodbye] else [Prompt])
  }

  /**
    The last thing a session writes: "Goodbye!" right after the prompt that
    read the exit line, or, at end of input, the unanswered prompt.
   */
  lemma {:induction false} SessionEnds(lines: seq<string>, turn: Turn)
    ensures FirstExit(lines) < |lines| ==>
      |SessionWrites(lines, turn)| >= 2 && SessionWrites(lines, turn)[|SessionWrites(lines, turn)| - 2..] == [Prompt, Goodbye]
    ensures FirstExit(lines) == |lines| ==>
      |SessionWrites(lines, turn)| >= 1 && SessionWrites(lines, turn)[|SessionWrites(lines, turn)| - 1] == Prompt
  {
  }

  /**
    `run_agent`'s loop over a finite standard input, with end of input ending
    the session. Exactly the lines before the first exit line are dispatched,
    in order, whatever their outcomes; nothing after it is read.
   */
  method RunAgent(lines: seq<string>, turn: Turn) returns (writes: seq<string>, dispatched: seq<string>)
    ensures dispatched == lines[..FirstExit(lines)]
    ensures forall i :: 0 <= i < |dispatched| ==> !IsExitCommand(dispatched[i])
    ensures writes == SessionWrites(lines, turn)
  {
    writes, dispatched := [], [];
    var i := 0;
    while true
      invariant i <= FirstExit(lines)
      invariant dispatched == lines[..i]
      invariant writes == TurnsWrites(lines, turn, i)
      decreases |lines| - i
    {
      writes := writes + [Prompt];
      if i == |lines| {
        break;
      }
      var line := lines[i];
      FirstExitAt(lines, i);
      if IsExitCommand(line) {
        writes := writes + [Goodbye];
        break;
      }
      var reply := turn(i, line);
      dispatched := dispatched + [line];
      writes := writes + reply;
      i := i + 1;
    }
    forall j | 0 <= j < |dispatched|
      ensures !IsExitCommand(dispatched[j])
    {
      FirstExitAt(lines, j);
    }
  }

  /** `n` reads at end of input: each writes the prompt, raises `EOFError`, and prints it. */
  function EofErrors(n: nat): (r: seq<string>)
    ensures |r| == 2 * n
    ensures forall j :: 0 <= j < 2 * n ==> r[j] == if j % 2 == 0 then Prompt else ErrorLine(EofMessage)
  {
    if n == 0 then [] else EofErrors(n - 1) + [Prompt, ErrorLine(EofMessage)]
  }

  /**
    What `run_agent`'s `while True` loop, exactly as written, has written
    after `n` iterations. Before the first exit line each iteration is a
    turn; an exit line ends the session with "Goodbye!". At end of input
    `input()` raises `EOFError`, which the `except Exception` clause catches
    like any turn failure, so without an exit line every further iteration
    writes the prompt and an error line, and the session never ends.
   */
  function AsWrittenWrites(lines: seq<string>, turn: Turn, n: nat): seq<string>
  {
    if n == 0 then []
    else if n - 1 < FirstExit(lines) then
      AsWrittenWrites(lines, turn, n - 1) + [Prompt] + turn(n - 1, lines[n - 1])
    else if FirstExit(lines) < |lines| then
      AsWrittenWrites(lines, turn, FirstExit(lines)) + [Prompt, Goodbye]
    else
      AsWrittenWrites(lines, turn, n - 1) + [Prompt, ErrorLine(EofMessage)]
  }

  /** Until the first exit line is reached, the iterations are the turns. */
  lemma {:induction false} AsWrittenTurns(lines: seq<string>, turn: Turn, n: nat)
    requires n <= FirstExit(lines)
    ensures AsWrittenWrites(lines, turn, n) == TurnsWrites(lines, turn, n)
  {
    if n > 0 {
      AsWrittenTurns(lines, turn, n - 1);
    }
  }

  /** Once an exit line has been read, the loop has written the whole session and writes no more. */
  lemma {:induction false} AsWrittenAfterExit(lines: seq<string>, turn: Turn, n: nat)
    requires FirstExit(lines) < |lines| && FirstExit(lines) < n
    ensures AsWrittenWrites(lines, turn, n) == SessionWrites(lines, turn)
  {
    AsWrittenTurns(lines, turn, FirstExit(lines));
  }

  /**
    When the input has no exit line, every iteration after the last line
    writes the prompt and the end-of-input error, and the loop goes on.
   */
  lemma {:induction false} AsWrittenAfterEof(lines: seq<string>, turn: Turn, n: nat)
    requires FirstExit(lines) == |lines| <= n
    ensures AsWrittenWrites(lines, turn, n) == TurnsWrites(lines, turn, |lines|) + EofErrors(n - |lines|)
  {
    if n == |lines| {
      AsWrittenTurns(lines, turn, n);
      assert EofErrors(0) == [];
      assert TurnsWrites(lines, turn, n) + [] == TurnsWrites(lines, turn, n);
    } else {
      AsWrittenAfterEof(lines, turn, n - 1);
      AppendAssociates(TurnsWrites(lines, turn, |lines|), EofErrors(n - 1 - |lines|), [Prompt, ErrorLine(EofMessage)]);
    }
  }

  /**
    `run_agent`'s loop exactly as written, cut off after `budget` iterations:
    it writes `AsWrittenWrites`, dispatches the lines before the first exit
    line that it reaches, and is still running unless it read an exit line.
   */
  method RunAgentAsWritten(lines: seq<string>, turn: Turn, budget: nat)
    returns (writes: seq<string>, dispatched: seq<string>, running: bool)
    ensures dispatched == lines[..if budget < FirstExit(lines) then budget else FirstExit(lines)]
    ensures running <==> FirstExit(lines) == |lines| || budget <= FirstExit(lines)
    ensures writes == AsWrittenWrites(lines, turn, budget)
  {
    writes, dispatched, running := [], [], true;
    var i, eofReads := 0, 0;
    while i + eofReads < budget
      invariant i + eofReads <= budget
      invariant i <= FirstExit(lines)
      invariant dispatched == lines[..i]
      invariant eofReads > 0 ==> i == |lines| == FirstExit(lines)
      invariant writes == AsWrittenWrites(lines, turn, i + eofReads)
      decreases budget - i - eofReads
    {
      // Each pass writes the prompt of `input`, then what the pass prints.
      if i == |lines| {
        // `input` raises EOFError, the except clause prints it
        writes := writes + [Prompt, ErrorLine(EofMessage)];
        eofReads := eofReads + 1;
      } else {
        var line := lines[i];
        FirstExitAt(lines, i);
        if IsExitCommand(line) {
          writes := writes + [Prompt, Goodbye];
          running := false;
          break;
        }
        var reply := turn(i, line);
        dispatched := dispatched + [line];
        writes := writes + [Prompt] + reply;
        i := i + 1;
      }
    }
  }

  /**
    With the loop as written, an input that ends without an exit line never
    ends the session: with one line "hello" and one more iteration, the
    second prompt is answered by the end-of-input error and the loop carries on.
   */
  method EndOfInputCounterexample(turn: Turn) returns (writes: seq<string>, running: bool)
    ensures running
    ensures |writes| >= 2 && writes[|writes| - 2..] == [Prompt, ErrorLine(EofMessage)]
  {
    var dispatched;
    writes, dispatched, running := RunAgentAsWritten(["hello"], turn, 2);
    assert FirstExit(["hello"]) == 1 by {
      ExitCommandIff("hello");
    }
    AsWrittenAfterEof(["hello"], turn, 2);
    assert EofErrors(1) == [Prompt, ErrorLine(EofMessage)];
    var before := TurnsWrites(["hello"], turn, 1);
    assert writes == before + [Prompt, ErrorLine(EofMessage)];
    assert writes[|before|..] == [Prompt, ErrorLine(EofMessage)];
  }

  /** Later turns only append: what the first `m` turns wrote stays in place. */
  lemma {:induction false} TurnsWritesPrefix(lines: seq<string>, turn: Turn, m: nat, n: nat)
    requires m <= n <= |lines|
    ensures TurnsWrites(lines, turn, m) <= TurnsWrites(lines, turn, n)
  {
    if m < n {
      TurnsWritesPrefix(lines, turn, m, n - 1);
      var before := TurnsWrites(lines, turn, n - 1);
      assert before <= before + [Prompt] + turn(n - 1, lines[n - 1]);
    }
  }

  /** The session's output starts with what the first `m` dispatched turns wrote, then a prompt. */
  lemma {:induction false} SessionWritesPrefix(lines: seq<string>, turn: Turn, m: nat)
    requires m <= FirstExit(lines)
    ensures TurnsWrites(lines, turn, m) + [Prompt] <= SessionWrites(lines, turn)
  {
    var k := FirstExit(lines);
    if m < k {
      var next := TurnsWrites(lines, turn, m + 1);
      assert TurnsWrites(lines, turn, m) + [Prompt] <= next;
      TurnsWritesPrefix(lines, turn, m + 1, k);
      assert next <= SessionWrites(lines, turn);
    }
  }

  /**
    Whatever a dispatched turn prints, the session goes on: after the earlier
    turns come this turn's prompt, its output, and the prompt of the next read.
   */
  lemma {:induction false} TurnInSession(lines: seq<string>, turn: Turn, i: nat)
    requires i < FirstExit(lines)
    ensures TurnsWrites(lines, turn, i) + [Prompt] + turn(i, lines[i]) + [Prompt] <= SessionWrites(lines, turn)
  {
    SessionWritesPrefix(lines, turn, i + 1);
  }

  /**
    A turn whose agent call raises does not end the session: its error line
    is written right after its prompt, and the next thing written is the
    prompt for the next read.
   */
  lemma {:induction false} FailedTurnContinues(lines: seq<string>, agent: Oracle, i: nat)
    requires i < FirstExit(lines)
    requires agent(i, lines[i]).Raised?
    ensures TurnsWrites(lines, AgentTurn(agent), i) + [Prompt, ErrorLine(agent(i, lines[i]).message), Prompt]
      <= SessionWrites(lines, AgentTurn(agent))
  {
    var before := TurnsWrites(lines, AgentTurn(agent), i);
    var error := ErrorLine(agent(i, lines[i]).message);
    assert AgentTurn(agent)(i, lines[i]) == [error];
    TurnInSession(lines, AgentTurn(agent), i);
    assert before + [Prompt] + [error] + [Prompt] == before + [Prompt, error, Prompt];
  }
}
