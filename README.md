# Mourish AI Builder: verified model of the client core

The Mourish AI Builder is a browser chat client. It sends a description of an app to a hosted code-generation model. It shows the returned code, and when that code is html it also runs it in a sandboxed preview frame. This project models the three parts of the client that contain logic, and proves properties about them:

- **Prompt builder** (`GeminiService`, services/geminiService.ts). `BuildPrompt` builds the text sent to the model:
  - the `User Request:` line;
  - the existing-code section with its "Return the FULL updated code" instruction, when the current code is truthy;
  - a `Conversation History:` block holding the last six messages as `role: content` lines, put in front when there is history.

  `ReadResponse` is the check on the reply: a call that threw, an absent or empty text, or a text that does not parse are errors.
- **Session** (`App.Session`, App.tsx). The state of the app is `prompt`, `generated`, `history`, `isLoading`, `viewMode` and `error`. `handleSubmit` becomes three methods:
  - `Submit` accepts or rejects the request. An accepted submit logs the user message and returns the `ServiceCall` holding the pre-submit history, the existing code (`generated?.code || null`) and the submit-time view mode.
  - `CompleteSuccess` applies a returned result.
  - `CompleteFailure` applies a failed call.

  `Resolve` routes a service reply to one of the two completions. The view toggles, the send-button condition, the Enter key and the right panel (placeholder, editor pane, preview pane) are modelled too.
- **Preview** (`PreviewComponent`, components/Preview.tsx). `Render` is the html/notice branch, and the sandbox attribute has exactly five grants. In `PreviewFrame`, the iframe document is a string field that every update replaces wholesale. The class invariant `Valid()` says the frame exists only for html and then holds exactly `code`, which makes refresh idempotent.
- **Types** (types.ts): `GeneratedCode`, `Message`, `Role`, `ViewMode` and `AppState` are datatypes. `Text` holds JavaScript's `trim` and `join`, a `Split` inverse of `join`, and substring predicates.

One behaviour of the code is worth knowing. After a success, the html rule tests the view mode captured when the request was submitted (the closure's `viewMode`), not the current one. A toggle made while loading is therefore not seen. `App.AutoSwitch` takes both modes and `App.AutoSwitchUsesSubmitTimeMode` shows the effect.

## Model

| member | source | states |
|---|---|---|
| Types.RoleName | types.ts:8 | a role prints as exactly `user` or `model`, never as the empty string |
| Types.RoleNameInjective | types.ts:8 | the two roles print differently |
| Types.FieldsDetermineArtifact | types.ts:1-5 | two artifacts that agree on the fields `code`, `language` and `explanation` (read through `Types.Field`) are the same artifact: it has no other fields |
| GeminiService.ResponseSchemaRequired | services/geminiService.ts:41 | a name is in the required list iff `Types.Field` reads it from a `GeneratedCode`, and no name is listed twice: the schema requires exactly the fields of the artifact |
| GeminiService.RecentHistoryWindow | services/geminiService.ts:59 | `RecentHistory`, the model of `slice(-6)`, keeps min(6, \|history\|) messages: the last ones, in order |
| GeminiService.RecentHistoryTextEmptyIff | services/geminiService.ts:59-60 | `RecentHistoryText`, the joined history, is empty iff the history is empty, so the truthiness test on the string is a test on the history |
| GeminiService.HistoryLines | services/geminiService.ts:59 | when no content holds a newline, splitting the history text at newlines gives back one `role: content` line per windowed message, in order |
| GeminiService.BuildPrompt | services/geminiService.ts:50-62 | the prompt is the history block (present iff there is history), then the request line, then the existing-code section (present iff the code is truthy) |
| GeminiService.HistoryBlockPresence | services/geminiService.ts:59-62 | the prompt starts with `Conversation History:\n` iff there is history; the block is then followed by a blank line and the request line; without history the prompt starts with the request line |
| GeminiService.RequestLinePresent | services/geminiService.ts:51 | `User Request: <prompt>\n` and the prompt verbatim are always contained in the prompt |
| GeminiService.ExistingCodeLast | services/geminiService.ts:51-55 | the prompt ends with the full-code instruction iff the code is truthy; the code then appears verbatim and its section ends the prompt; otherwise the request line ends it |
| GeminiService.OlderHistoryIgnored | services/geminiService.ts:58-59 | messages older than the last six never change the prompt |
| GeminiService.ReadResponse | services/geminiService.ts:75-81 | the result is a `GeneratedCode` iff the reply has a non-empty text that parses, and it is the parsed value; an absent or empty text is `NoResponse` |
| Text.TrimEmptyIffAllWhitespace | App.tsx:39 | `prompt.trim()` (`Text.Trim`) is empty iff every character is ECMAScript whitespace or a line terminator |
| Text.SplitJoin | services/geminiService.ts:59 | splitting undoes `join('\n')` (`Text.Join`) when no line contains the separator |
| Text.JoinEmptyIff | services/geminiService.ts:59-60 | a join is empty iff there are no lines or a single empty line |
| PreviewComponent.SandboxGrants | components/Preview.tsx:58 | five capability tokens, none containing a space |
| PreviewComponent.SandboxGrantsExactly | components/Preview.tsx:58 | the sandbox attribute tokenises to exactly allow-scripts, allow-same-origin, allow-forms, allow-modals and allow-popups |
| PreviewComponent.NoticeBody | components/Preview.tsx:35-36 | the notice text holds the language verbatim, at the same place whatever the language, so different languages give different notices |
| PreviewComponent.Render | components/Preview.tsx:28-59 | a frame iff the language is exactly `html`; otherwise a "Preview Not Available" notice whose text contains the language |
| PreviewComponent.PreviewFrame.constructor | components/Preview.tsx:23-26 | first render: the frame holds exactly `code` for html and there is no frame otherwise |
| PreviewComponent.PreviewFrame.UpdateIframe | components/Preview.tsx:12-21 | with a frame and `html`, the document becomes exactly `code`, with nothing of the old one kept; otherwise nothing is written |
| PreviewComponent.PreviewFrame.Refresh | components/Preview.tsx:46-52 | with html and a mounted frame, whatever document the frame holds, a manual refresh replaces it by exactly `code` and restores the invariant |
| PreviewComponent.PreviewFrame.SetProps | components/Preview.tsx:23-26 | after a change of code or language the frame holds exactly the new code for html and is gone otherwise |
| PreviewComponent.RefreshTwice | components/Preview.tsx:47 | from any document, a second refresh writes what the first wrote: the frame ends holding exactly `code`, and the props are untouched |
| App.CodeForService | App.tsx:51 | the service gets the artifact's code iff there is an artifact with non-empty code, and `null` otherwise |
| App.ExistingCodeSentIff | App.tsx:48-52 | the prompt carries the existing code and the full-code instruction iff there is an artifact with non-empty code |
| App.EditorWidth | App.tsx:201 | the editor pane is visible iff the mode is not PREVIEW, and half width iff SPLIT |
| App.PreviewWidth | App.tsx:209 | the preview pane is visible iff the mode is not EDITOR, and half width iff SPLIT |
| App.RightPanel | App.tsx:188-212 | placeholder iff nothing is generated; editor shown iff the mode is not PREVIEW; preview shown iff the mode is not EDITOR; both half width iff SPLIT; never both hidden |
| App.AutoSwitch | App.tsx:62-66 | a language other than html gives the editor alone (preview hidden); html after a submit made in EDITOR mode gives both panes at half width; html after a submit in any other mode keeps the current mode (`AutoSwitchPanes` and `AutoSwitchUsesSubmitTimeMode` relate this to the panes) |
| App.AutoSwitchPanes | App.tsx:62-66 | without a toggle during loading, the preview is visible after success iff the result is html; the editor stays visible unless html arrives in PREVIEW mode |
| App.AutoSwitchUsesSubmitTimeMode | App.tsx:62-66 | the html rule reads the submit-time mode: EDITOR chosen during loading is kept and hides the preview, and PREVIEW chosen during loading is overridden by SPLIT |
| App.Session.constructor | App.tsx:20-25 | initially nothing is generated, the history is empty, nothing loads, the mode is SPLIT and there is no error |
| App.Session.SetPrompt | App.tsx:169 | typing replaces the request text |
| App.Session.SetViewMode | App.tsx:98-112 | the toggles set the view mode |
| App.Session.SubmitEnabled | App.tsx:177 | sending is enabled iff not loading and the request has a non-whitespace character |
| App.Session.Submit | App.tsx:37-52 | a blank request or one made while loading changes nothing and calls nothing; otherwise exactly one user message with the untrimmed text is appended, loading starts, the error and request box are cleared, and the call carries the pre-submit history, the existing code and the submit-time mode |
| App.Session.CompleteSuccess | App.tsx:54-73 | the artifact is replaced wholesale by the result, exactly one model message with its explanation is appended, the mode follows `AutoSwitch`, loading ends |
| App.Session.CompleteFailure | App.tsx:68-73 | artifact and history unchanged (the user message stays, no model message), the retry banner is set, loading ends |
| App.Session.Resolve | App.tsx:48-73 | loading ends and the request box is untouched either way; a reply passing the service's checks completes the submit with its result, and any service error leaves artifact, history and view mode unchanged and sets the banner |
| App.Session.KeyDown | App.tsx:76-81 | Enter without Shift is exactly `Submit`: rejected, it changes nothing; accepted, it logs the user message, starts loading, clears error and request box and returns the same service call; any other key changes nothing |

## Left out

- The model API call, the client construction and the API key (services/geminiService.ts:6, 64-73) are not modelled. A reply is a `GeminiService.Reply` parameter: a failed call, or an answer whose text may be absent.
- `JSON.parse` and the `as GeneratedCode` cast (services/geminiService.ts:80) are a `parse` parameter that returns `None` when parsing throws and otherwise a `GeneratedCode` with three strings.
- GeminiService.ReadResponse: replies that parse to a value without the three string fields (`null`, `{}`, `{"code":"x"}`) are not modelled. The client does not check the parsed value and App.tsx:54-66 would store it as it is. The model assumes the server honours the `responseSchema` of services/geminiService.ts:28-42.
- The system instruction text, the schema's field descriptions, the model name and the temperature (services/geminiService.ts:8-23, 28-42, 65, 71) are policy passed to the model, not client behaviour.
- `console.error` (services/geminiService.ts:84, App.tsx:70) is logging only.
- Async timing, React state batching and unmounting are not modelled. A submit is an accept step followed by one completion event. A reply after unmount is out of scope.
- `Date.now()` (App.tsx:41, 58) is an arbitrary `now: nat` parameter.
- The scroll-into-view effect (App.tsx:29-35), all JSX markup, class names and the chat list rendering are not modelled. The pane widths are the only part of the markup modelled.
- `e.preventDefault()` in the form and key handlers (App.tsx:38, 78) has no effect on state.
- components/Editor.tsx is a read-only display with no logic, so it is not part of this model.
- The browser's enforcement of the iframe sandbox and the exact `document.write` semantics are not modelled. The document is a string.
- The initial about:blank markup of a fresh iframe is `BlankDocument = ""`. It is overwritten before it is ever observed.
- `contentDocument` is never null in the model. With allow-same-origin the frame's document is reachable, so the `if (doc)` branch that skips the write is not modelled.
- The hidden preview pane keeps its `Preview` component mounted (only CSS hides it), so its frame still follows `generated`. The model does not tie a `PreviewFrame` to the session.
