/** The request side of the generation client (services/geminiService.ts):
    the prompt sent to the model, built from the user's request, the recent
    conversation and the code generated so far, and the check on the reply. */
module GeminiService {
  import opened Types
  import Text

  /** How many of the most recent messages are sent as context. */
  const HistoryWindow: nat := 6

  const HistoryHeader := "Conversation History:\n"
  const RequestPrefix := "User Request: "
  const ExistingCodeOpen := "\n--- Current Existing Code ---\n"
  /** The closing rule, then a newline and six spaces of template-literal
      indentation before the instruction, which ends with this sentence. */
  const FullCodeInstruction := "Return the FULL updated code, not just the diff."
  const ExistingCodeRule := "\n---------------------------\n\n      Instruction: Update the existing code above based on the user request. "
  const ExistingCodeClose := ExistingCodeRule + FullCodeInstruction

  /** `history.slice(-6)`: the last six messages, or all of them when there
      are fewer, in their original order. */
  function RecentHistory(history: seq<Message>): seq<Message> {
    if |history| <= HistoryWindow then history else history[|history| - HistoryWindow..]
  }

  /** The window holds `min(6, |history|)` messages: the last ones of
      `history`, in their original order. */
  lemma RecentHistoryWindow(history: seq<Message>)
    ensures |RecentHistory(history)| == if |history| < HistoryWindow then |history| else HistoryWindow
    ensures forall i :: 0 <= i < |RecentHistory(history)| ==>
      RecentHistory(history)[i] == history[|history| - |RecentHistory(history)| + i]
  {
  }

  /** One transcript line: `role: content`. */
  function RenderMessage(m: Message): string {
    RoleName(m.role) + ": " + m.content
  }

  function RenderLines(messages: seq<Message>): seq<string> {
    seq(|messages|, i requires 0 <= i < |messages| => RenderMessage(messages[i]))
  }

  /** The recent messages as transcript lines joined by single newlines. */
  function RecentHistoryText(history: seq<Message>): string {
    Text.Join(RenderLines(RecentHistory(history)), '\n')
  }

  /** JavaScript truthiness of a `string | null`: present and non-empty. */
  predicate IsTruthy(s: Option<string>) {
    s.Some? && s.value != ""
  }

  function RequestLine(prompt: string): string {
    RequestPrefix + prompt + "\n"
  }

  function ExistingCodeSection(code: string): string {
    ExistingCodeOpen + code + ExistingCodeClose
  }

  /** The prompt `generateAppCode` sends: the request line, the existing
      code section appended when there is code, and the history block put in
      front when the rendered history is non-empty. */
  function BuildPrompt(prompt: string, history: seq<Message>, currentCode: Option<string>): (r: string)
    ensures r == HistoryBlock(history) + RequestLine(prompt) + CodeSection(currentCode)
  {
    var request := RequestLine(prompt);
    var withCode := if IsTruthy(currentCode) then request + ExistingCodeSection(currentCode.value) else request;
    var recent := RecentHistoryText(history);
    RecentHistoryTextEmptyIff(history);
    Text.ConcatAssoc(HistoryHeader + recent + "\n\n", request, CodeSection(currentCode));
    if recent != "" then HistoryHeader + recent + "\n\n" + withCode else withCode
  }

  /** The history block: present exactly when the history is non-empty. */
  function HistoryBlock(history: seq<Message>): string {
    if |history| == 0 then "" else HistoryHeader + RecentHistoryText(history) + "\n\n"
  }

  /** The existing code section: present exactly when there is non-empty
      code. */
  function CodeSection(currentCode: Option<string>): string {
    if IsTruthy(currentCode) then ExistingCodeSection(currentCode.value) else ""
  }

  /** The rendered history is empty exactly when the history is: every
      transcript line holds at least a role name. */
  lemma RecentHistoryTextEmptyIff(history: seq<Message>)
    ensures RecentHistoryText(history) == "" <==> |history| == 0
  {
    var lines := RenderLines(RecentHistory(history));
    Text.JoinEmptyIff(lines, '\n');
    if |lines| == 1 {
      assert |RoleName(RecentHistory(history)[0].role)| > 0;
    }
  }

  /** The prompt opens with the history header exactly when there is
      history; the block then ends with a blank line before the request. */
  lemma HistoryBlockPresence(prompt: string, history: seq<Message>, currentCode: Option<string>)
    ensures Text.StartsWith(BuildPrompt(prompt, history, currentCode), HistoryHeader) <==> |history| > 0
    ensures |history| > 0 ==>
      Text.StartsWith(BuildPrompt(prompt, history, currentCode),
                      HistoryHeader + RecentHistoryText(history) + "\n\n" + RequestLine(prompt))
    ensures |history| == 0 ==> Text.StartsWith(BuildPrompt(prompt, history, currentCode), RequestLine(prompt))
  {
    var s := BuildPrompt(prompt, history, currentCode);
    var request, code := RequestLine(prompt), CodeSection(currentCode);
    if |history| > 0 {
      var rest := RecentHistoryText(history) + "\n\n";
      assert s == HistoryHeader + rest + request + code;
      PrefixesOfLayout(HistoryHeader, rest, request, code);
    } else {
      assert s == request + code;
      RequestOpens(prompt, code);
    }
  }

  /** Text that opens with the request line does not open with the history
      header: the two differ in their first character. */
  lemma RequestOpens(prompt: string, rest: string)
    ensures Text.StartsWith(RequestLine(prompt) + rest, RequestLine(prompt))
    ensures !Text.StartsWith(RequestLine(prompt) + rest, HistoryHeader)
  {
    var s := RequestLine(prompt) + rest;
    Text.StartsWithConcat(RequestLine(prompt), rest);
    assert s[0] == 'U' && HistoryHeader[0] == 'C';
  }

  /** In `a + b + c + d`, both `a` and `a + b + c` are prefixes. */
  lemma PrefixesOfLayout(a: string, b: string, c: string, d: string)
    ensures Text.StartsWith(a + b + c + d, a)
    ensures Text.StartsWith(a + b + c + d, a + b + c)
  {
    Text.StartsWithConcat(a + b + c, d);
    Text.ConcatAssoc(a, b, c);
    Text.ConcatAssoc(a, b + c, d);
    Text.StartsWithConcat(a, b + c + d);
  }

  /** The request line, with the prompt verbatim, is always in the prompt. */
  lemma RequestLinePresent(prompt: string, history: seq<Message>, currentCode: Option<string>)
    ensures Text.Contains(BuildPrompt(prompt, history, currentCode), RequestLine(prompt))
    ensures Text.Contains(BuildPrompt(prompt, history, currentCode), prompt)
  {
    var block, code := HistoryBlock(history), CodeSection(currentCode);
    Text.ContainsMiddle(block, RequestLine(prompt), code);
    Text.ConcatAssoc(block, RequestPrefix, prompt);
    Text.ConcatAssoc(block + RequestPrefix, prompt, "\n");
    Text.ConcatAssoc(block + RequestPrefix + prompt, "\n", code);
    Text.ConcatAssoc(block + RequestPrefix, prompt, "\n" + code);
    Text.ConcatAssoc(block, RequestPrefix + prompt, "\n");
    Text.ContainsMiddle(block + RequestPrefix, prompt, "\n" + code);
  }

  /** The closing text of the existing code section ends with the full-code
      instruction. */
  lemma CloseEndsWithInstruction()
    ensures Text.EndsWith(ExistingCodeClose, FullCodeInstruction)
  {
    Text.EndsWithConcat(ExistingCodeRule, FullCodeInstruction);
  }

  /** The existing code appears verbatim, closed by the full-code
      instruction, exactly when `currentCode` is truthy, and the section is
      the last thing in the prompt; otherwise the request line ends it. */
  lemma ExistingCodeLast(prompt: string, history: seq<Message>, currentCode: Option<string>)
    ensures Text.EndsWith(BuildPrompt(prompt, history, currentCode), FullCodeInstruction) <==> IsTruthy(currentCode)
    ensures IsTruthy(currentCode) ==>
      Text.EndsWith(BuildPrompt(prompt, history, currentCode), RequestLine(prompt) + ExistingCodeSection(currentCode.value))
    ensures IsTruthy(currentCode) ==> Text.Contains(BuildPrompt(prompt, history, currentCode), currentCode.value)
    ensures !IsTruthy(currentCode) ==> Text.EndsWith(BuildPrompt(prompt, history, currentCode), RequestLine(prompt))
  {
    var s := BuildPrompt(prompt, history, currentCode);
    var block, request := HistoryBlock(history), RequestLine(prompt);
    if IsTruthy(currentCode) {
      var code := currentCode.value;
      var tail := request + ExistingCodeSection(code);
      assert s == block + tail;
      Text.EndsWithConcat(block, tail);
      Text.ConcatAssoc(block, request, ExistingCodeSection(code));
      Text.ConcatAssoc(request, ExistingCodeOpen + code, ExistingCodeClose);
      Text.ConcatAssoc(block, request + (ExistingCodeOpen + code), ExistingCodeClose);
      Text.ConcatAssoc(request, ExistingCodeOpen, code);
      Text.ConcatAssoc(block, request + ExistingCodeOpen, code);
      Text.ConcatAssoc(block, request, ExistingCodeOpen);
      assert s == (block + request + ExistingCodeOpen) + code + ExistingCodeClose;
      Text.ContainsMiddle(block + request + ExistingCodeOpen, code, ExistingCodeClose);
      Text.EndsWithConcat(block + request + ExistingCodeOpen + code, ExistingCodeClose);
      CloseEndsWithInstruction();
      Text.EndsWithTransitive(s, ExistingCodeClose, FullCodeInstruction);
    } else {
      assert s == block + request;
      Text.EndsWithConcat(block, request);
      assert s[|s| - 1] == '\n';
      assert FullCodeInstruction[|FullCodeInstruction| - 1] == '.';
    }
  }

  /** Only the window matters: messages older than the last six never
      influence the prompt. */
  lemma OlderHistoryIgnored(prompt: string, older: seq<Message>, history: seq<Message>, currentCode: Option<string>)
    requires |history| >= HistoryWindow
    ensures BuildPrompt(prompt, older + history, currentCode) == BuildPrompt(prompt, history, currentCode)
  {
    var all := older + history;
    assert all[|all| - HistoryWindow..] == history[|history| - HistoryWindow..];
    assert RecentHistory(all) == RecentHistory(history);
  }

  /** Cutting the rendered history at its newlines gives back one
      `role: content` line per windowed message, in order, when no message
      content itself holds a newline. */
  lemma HistoryLines(history: seq<Message>)
    requires |history| > 0
    requires forall i :: 0 <= i < |history| ==> '\n' !in history[i].content
    ensures Text.Split(RecentHistoryText(history), '\n') == RenderLines(RecentHistory(history))
    ensures |RenderLines(RecentHistory(history))| == if |history| < HistoryWindow then |history| else HistoryWindow
  {
    RecentHistoryWindow(history);
    var recent := RecentHistory(history);
    var lines := RenderLines(recent);
    forall k | 0 <= k < |lines| ensures '\n' !in lines[k] {
      var m := recent[k];
      assert m == history[|history| - |recent| + k];
      assert lines[k] == RoleName(m.role) + ": " + m.content;
      assert '\n' !in RoleName(m.role);
    }
    Text.SplitJoin(lines, '\n');
  }

  /** Why a generation call failed. */
  datatype GenerationError = RequestFailed | NoResponse | MalformedResponse

  /** What the model API gave back: the call threw, or it answered with a
      `text` that may be absent. */
  datatype Reply = CallFailed | Answered(text: Option<string>)

  /** The reply check of `generateAppCode`: an absent or empty text is an
      error, and otherwise the text is handed to `parse` (JSON.parse and the
      cast; `None` when it throws). */
  function ReadResponse(reply: Reply, parse: string -> Option<GeneratedCode>): (r: Result<GeneratedCode, GenerationError>)
    ensures r.Ok? <==> reply.Answered? && IsTruthy(reply.text) && parse(reply.text.value).Some?
    ensures r.Ok? ==> r.value == parse(reply.text.value).value
    ensures reply.Answered? && !IsTruthy(reply.text) ==> r == Err(NoResponse)
  {
    match reply
    case CallFailed => Err(RequestFailed)
    case Answered(text) =>
      if !IsTruthy(text) then Err(NoResponse)
      else match parse(text.value)
        case None => Err(MalformedResponse)
        case Some(data) => Ok(data)
  }

  /** The fields the response schema requires are exactly the fields of
      `GeneratedCode`. */
  function ResponseSchemaRequired(): (fields: seq<string>)
    ensures forall g: GeneratedCode, n :: Field(g, n).Some? <==> n in fields
    ensures forall i, j :: 0 <= i < j < |fields| ==> fields[i] != fields[j]
  {
    ["code", "language", "explanation"]
  }
}
