/** The chat session (App.tsx): the submit cycle against the generation
    service, the view-mode toggles with the automatic switch after a
    generation, and which panes the workspace shows. */
module App {
  import opened Types
  import Text
  import GeminiService
  import PreviewComponent

  /** The banner shown after a failed generation. */
  const FailureText := "Failed to generate code. Please try again."

  /** One call of the generation service as an accepted submit makes it:
      the request text, the history and existing code it passes, and the
      view mode the submit saw, which decides the switch after success. */
  datatype ServiceCall = ServiceCall(prompt: string, history: seq<Message>,
                                     currentCode: Option<string>, modeAtSubmit: ViewMode)

  /** `generated?.code || null`: the current code, or nothing when there is
      no artifact or its code is empty. */
  function CodeForService(generated: Option<GeneratedCode>): (code: Option<string>)
    ensures code.Some? <==> generated.Some? && generated.value.code != ""
    ensures code.Some? ==> code.value == generated.value.code
  {
    if generated.Some? && generated.value.code != "" then Some(generated.value.code) else None
  }

  /** The prompt carries the existing code, with the full-code instruction
      at its end, exactly when there is an artifact with non-empty code. */
  lemma ExistingCodeSentIff(prompt: string, history: seq<Message>, generated: Option<GeneratedCode>)
    ensures Text.EndsWith(GeminiService.BuildPrompt(prompt, history, CodeForService(generated)),
                          GeminiService.FullCodeInstruction)
            <==> generated.Some? && generated.value.code != ""
    ensures generated.Some? && generated.value.code != "" ==>
      Text.Contains(GeminiService.BuildPrompt(prompt, history, CodeForService(generated)), generated.value.code)
  {
    GeminiService.ExistingCodeLast(prompt, history, CodeForService(generated));
  }

  /** The view mode after a successful generation: the editor alone for a
      language that cannot be previewed, split when html arrives and the
      submit saw the editor alone, and otherwise the mode as it now is.
      The test reads the mode captured when the request was submitted, not
      `current`, which a toggle during loading may have changed. */
  function AutoSwitch(language: string, modeAtSubmit: ViewMode, current: ViewMode): (m: ViewMode)
    ensures language != PreviewComponent.Html ==> EditorWidth(m) == Full && PreviewWidth(m) == Hidden
    ensures language == PreviewComponent.Html && modeAtSubmit == Editor ==>
              EditorWidth(m) == Half && PreviewWidth(m) == Half
    ensures language == PreviewComponent.Html && modeAtSubmit != Editor ==> m == current
  {
    if language != PreviewComponent.Html then Editor
    else if modeAtSubmit == Editor then Split
    else current
  }

  /** How much of the workspace a pane takes. */
  datatype Width = Full | Half | Hidden

  /** The editor pane: shown unless the preview alone is selected, and
      sharing the workspace only in the split view. */
  function EditorWidth(mode: ViewMode): (w: Width)
    ensures w != Hidden <==> mode != Preview
    ensures w == Half <==> mode == Split
  {
    match mode
    case Editor => Full
    case Split => Half
    case Preview => Hidden
  }

  /** The preview pane: shown unless the editor alone is selected, and
      sharing the workspace only in the split view. */
  function PreviewWidth(mode: ViewMode): (w: Width)
    ensures w != Hidden <==> mode != Editor
    ensures w == Half <==> mode == Split
  {
    match mode
    case Preview => Full
    case Split => Half
    case Editor => Hidden
  }

  /** The right-hand panel: a placeholder until there is an artifact, then
      the editor and preview panes. */
  datatype Workspace = ReadyToBuild | Panes(editor: Width, preview: Width)

  function RightPanel(generated: Option<GeneratedCode>, mode: ViewMode): (w: Workspace)
    ensures w.ReadyToBuild? <==> generated.None?
    ensures w.Panes? ==> (w.editor != Hidden <==> mode != Preview)
    ensures w.Panes? ==> (w.preview != Hidden <==> mode != Editor)
    ensures w.Panes? ==> (w.editor == Half <==> mode == Split) && (w.preview == Half <==> mode == Split)
    ensures w.Panes? ==> w.editor != Hidden || w.preview != Hidden
  {
    if generated.None? then ReadyToBuild else Panes(EditorWidth(mode), PreviewWidth(mode))
  }

  /** When the mode was not toggled while loading, the preview pane is
      visible after a generation exactly when the new artifact is html, and
      the editor stays visible unless html arrives while the preview alone
      was shown. A language other than html always leaves the editor alone. */
  lemma AutoSwitchPanes(language: string, mode: ViewMode)
    ensures PreviewWidth(AutoSwitch(language, mode, mode)) != Hidden <==> language == PreviewComponent.Html
    ensures EditorWidth(AutoSwitch(language, mode, mode)) != Hidden
            <==> (language != PreviewComponent.Html || mode != Preview)
    ensures language == PreviewComponent.Html && mode != Editor ==> AutoSwitch(language, mode, mode) == mode
  {
  }

  /** A toggle to the editor alone made while loading is kept when html
      arrives (the preview stays hidden), and a toggle away from it is
      overridden by the split view. */
  lemma AutoSwitchUsesSubmitTimeMode()
    ensures AutoSwitch(PreviewComponent.Html, Split, Editor) == Editor
    ensures PreviewWidth(AutoSwitch(PreviewComponent.Html, Split, Editor)) == Hidden
    ensures AutoSwitch(PreviewComponent.Html, Editor, Preview) == Split
  {
  }

  /** The most recent message written by the model, if any. */
  function LastModelMessage(history: seq<Message>): (m: Option<Message>)
    ensures m.Some? ==> m.value.role == Model && m.value in history
    ensures m.None? <==> forall i :: 0 <= i < |history| ==> history[i].role == User
  {
    if |history| == 0 then None
    else if history[|history| - 1].role == Model then Some(history[|history| - 1])
    else
      var m := LastModelMessage(history[..|history| - 1]);
      assert forall i :: 0 <= i < |history| - 1 ==> history[..|history| - 1][i] == history[i];
      assert m.None? ==> forall i :: 0 <= i < |history| ==> history[i].role == User;
      m
  }

  /** Appending a user message leaves the last model message as it was;
      appending a model message makes it the last one. */
  lemma LastModelMessageAppend(history: seq<Message>, m: Message)
    ensures LastModelMessage(history + [m]) == if m.role == Model then Some(m) else LastModelMessage(history)
  {
    assert (history + [m])[..|history|] == history;
  }

  /** The application's state and the submit cycle. `pending` holds the
      submit that waits for the service: the values its closure captured. */
  class Session {
    var prompt: string
    var generated: Option<GeneratedCode>
    var history: seq<Message>
    var isLoading: bool
    var viewMode: ViewMode
    var error: Option<string>
    var pending: Option<ServiceCall>

    /** Loading means one call is outstanding; its history is the log
        without the user message the submit appended last; no model message
        exists before the first artifact, and afterwards the latest one
        explains the current artifact; the only error is the retry banner. */
    ghost predicate Valid()
      reads this
    {
      (isLoading <==> pending.Some?)
      && (pending.Some? ==>
            |history| > 0
            && history[..|history| - 1] == pending.value.history
            && history[|history| - 1].role == User
            && history[|history| - 1].content == pending.value.prompt
            && pending.value.currentCode == CodeForService(generated)
            && error.None?)
      && (generated.None? <==> LastModelMessage(history).None?)
      && (generated.Some? ==> LastModelMessage(history).value.content == generated.value.explanation)
      && (error.Some? ==> error.value == FailureText)
    }

    /** The part of the state `AppState` describes. */
    function State(): AppState
      reads this
    {
      AppState(generated, history, isLoading, viewMode)
    }

    /** The initial state: nothing generated, no history, not loading, the
        split view and no error. */
    constructor ()
      ensures Valid()
      ensures State() == AppState(None, [], false, Split)
      ensures prompt == "" && error == None && pending == None
    {
      prompt := "";
      generated := None;
      history := [];
      isLoading := false;
      viewMode := Split;
      error := None;
      pending := None;
    }

    /** Typing in the request box. */
    method SetPrompt(text: string)
      requires Valid()
      modifies this`prompt
      ensures Valid() && prompt == text
    {
      prompt := text;
    }

    /** The three view toggles in the header. */
    method SetViewMode(mode: ViewMode)
      requires Valid()
      modifies this`viewMode
      ensures Valid() && viewMode == mode
    {
      viewMode := mode;
    }

    /** Whether the send button is enabled: not loading and the request
        holds a non-whitespace character. */
    function SubmitEnabled(): (enabled: bool)
      reads this
      ensures enabled <==> !isLoading && !Text.AllWhitespace(prompt)
    {
      Text.TrimEmptyIffAllWhitespace(prompt);
      !(isLoading || Text.Trim(prompt) == "")
    }

    /** The first half of `handleSubmit`. A blank request or one made while
        loading changes nothing and calls nothing. Otherwise the request is
        logged as a user message, loading starts, the error and the request
        box are cleared, and the service is called with the history and
        view mode as they were before this submit. */
    method Submit(now: nat) returns (call: Option<ServiceCall>)
      requires Valid()
      modifies this
      ensures Valid()
      ensures call.Some? <==> !old(isLoading) && !Text.AllWhitespace(old(prompt))
      ensures call.None? ==>
        prompt == old(prompt) && generated == old(generated) && history == old(history)
        && isLoading == old(isLoading) && viewMode == old(viewMode) && error == old(error)
        && pending == old(pending)
      ensures call.Some? ==>
        call.value == ServiceCall(old(prompt), old(history), CodeForService(old(generated)), old(viewMode))
        && history == old(history) + [Message(User, old(prompt), now)]
        && isLoading && error == None && prompt == ""
        && generated == old(generated) && viewMode == old(viewMode) && pending == call
    {
      Text.TrimEmptyIffAllWhitespace(prompt);
      if Text.Trim(prompt) == "" || isLoading {
        return None;
      }
      var userMessage := Message(User, prompt, now);
      var c := ServiceCall(prompt, history, CodeForService(generated), viewMode);
      LastModelMessageAppend(history, userMessage);
      history := history + [userMessage];
      isLoading := true;
      error := None;
      prompt := "";
      pending := Some(c);
      call := Some(c);
    }

    /** The service returned a result: it replaces the artifact wholesale,
        its explanation is logged as a model message, the view switches as
        `AutoSwitch` says for the mode the submit saw, and loading ends. */
    method CompleteSuccess(result: GeneratedCode, now: nat)
      requires Valid() && isLoading
      modifies this
      ensures Valid()
      ensures generated == Some(result)
      ensures history == old(history) + [Message(Model, result.explanation, now)]
      ensures viewMode == AutoSwitch(result.language, old(pending).value.modeAtSubmit, old(viewMode))
      ensures !isLoading && pending == None && error == None && prompt == old(prompt)
    {
      var modeAtSubmit := pending.value.modeAtSubmit;
      var modelMessage := Message(Model, result.explanation, now);
      generated := Some(result);
      LastModelMessageAppend(history, modelMessage);
      history := history + [modelMessage];
      if result.language != PreviewComponent.Html {
        viewMode := Editor;
      } else if modeAtSubmit == Editor {
        viewMode := Split;
      }
      isLoading := false;
      pending := None;
    }

    /** The service failed: the artifact and the log (with the user message
        and no model reply) stay as they were, the retry banner appears and
        loading ends. */
    method CompleteFailure()
      requires Valid() && isLoading
      modifies this
      ensures Valid()
      ensures generated == old(generated) && history == old(history)
      ensures error == Some(FailureText)
      ensures !isLoading && pending == None && viewMode == old(viewMode) && prompt == old(prompt)
    {
      error := Some(FailureText);
      isLoading := false;
      pending := None;
    }

    /** The service's answer arrives: a reply that passes the service's
        checks completes the submit with its result, anything else (a failed
        call, an absent or empty text, a text that does not parse) fails it. */
    method Resolve(reply: GeminiService.Reply, parse: string -> Option<GeneratedCode>, now: nat)
      requires Valid() && isLoading
      modifies this
      ensures Valid() && !isLoading && pending == None && prompt == old(prompt)
      ensures GeminiService.ReadResponse(reply, parse).Ok? ==>
        var result := GeminiService.ReadResponse(reply, parse).value;
        generated == Some(result)
        && history == old(history) + [Message(Model, result.explanation, now)]
        && viewMode == AutoSwitch(result.language, old(pending).value.modeAtSubmit, old(viewMode))
        && error == None
      ensures GeminiService.ReadResponse(reply, parse).Err? ==>
        generated == old(generated) && history == old(history) && error == Some(FailureText)
        && viewMode == old(viewMode)
    {
      var outcome := GeminiService.ReadResponse(reply, parse);
      if outcome.Ok? {
        CompleteSuccess(outcome.value, now);
      } else {
        CompleteFailure();
      }
    }

    /** Enter without Shift in the request box submits; any other key
        changes nothing here. */
    method KeyDown(key: string, shift: bool, now: nat) returns (call: Option<ServiceCall>)
      requires Valid()
      modifies this
      ensures Valid()
      ensures !(key == "Enter" && !shift) ==> call.None? && unchanged(this)
      ensures key == "Enter" && !shift ==> (call.Some? <==> !old(isLoading) && !Text.AllWhitespace(old(prompt)))
      ensures key == "Enter" && !shift && call.None? ==>
        prompt == old(prompt) && generated == old(generated) && history == old(history)
        && isLoading == old(isLoading) && viewMode == old(viewMode) && error == old(error)
        && pending == old(pending)
      ensures key == "Enter" && !shift && call.Some? ==>
        call.value == ServiceCall(old(prompt), old(history), CodeForService(old(generated)), old(viewMode))
        && history == old(history) + [Message(User, old(prompt), now)]
        && isLoading && error == None && prompt == ""
        && generated == old(generated) && viewMode == old(viewMode) && pending == call
    {
      call := None;
      if key == "Enter" && !shift {
        call := Submit(now);
      }
    }
  }
}
