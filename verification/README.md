# GenWeb AI Studio core, modelled in Dafny

GenWeb AI Studio is a browser app. A user describes a React app in a chat,
the Gemini model writes the component, and a live preview runs it inside an
iframe. This project models the parts of that loop that carry logic:

- **SourceRewriter** (`source_rewriter.dfy`): the preview's three regex
  replace-all passes over the generated source. Pass 1 comments out
  `import … from …` lines. Pass 2 turns `export default` into `const App =`.
  Pass 3 deletes `export `.
- **Text** (`text.dfy`): the string machinery those passes use. It has
  occurrence search, one-scan replace-all in the ECMAScript global-replace
  order, and `split`/`join`.
- **SandboxDocument** (`sandbox_document.dfy`): the HTML document the
  preview loads. It is a fixed prefix, the rewritten source, and a fixed
  suffix whose mount routine renders `App` or shows an error banner.
- **PreviewLifecycle** (`preview_lifecycle.dfy`): the blob-URL effect.
  Each change of `code` or `refreshTrigger` creates one object URL, points
  the iframe at it, and revokes it in the next cleanup.
- **HostApp** (`host_app.dfy`): the application state and
  `handleSendMessage`. Its steps are user message, "thinking", "coding",
  then the result or the apology. It also holds the view-mode visibility
  rules.
- **ChatInput** (`chat_input.dfy`): the composer. It has the submit guard
  (with ECMAScript `trim`), the disabled button, the Enter key, removal of
  an attachment by index, and the payload taken from a file's data URL.
- **GeminiService** (`gemini_service.dfy`): the service wrapper. It builds
  the prompt and turns the reply into a result or the one fixed error.
- **Types** and **Base** (`types.dfy`, `base.dfy`): the records of
  `types.ts`, plus `Option` and `Result`.
- **RewriterExamples** (`rewriter_examples.dfy`): the rewriter on five
  concrete sources.

Some behaviour comes from outside the program: the SDK reply, `JSON.parse`,
the clock, whether the iframe ref is attached, and whether `App` is bound
when the script runs. The model takes each of these as a parameter.
Object URLs are numbered from a counter.

Three exact readings are worth noting:

- JavaScript's `.` does not match the four ECMAScript line terminators (LF,
  CR, U+2028, U+2029). So an import line ends at the first of them.
- `trim` removes exactly the WhiteSpace and LineTerminator code points of
  ECMAScript.
- `split(',')[1]` is `undefined` when the data URL has no comma. The model
  writes this as `None`.

`App.tsx` passes the current code as context whenever it differs from the
placeholder, even when it is empty. The service then treats an empty code as
absent. The model keeps both steps.

## Model

| member | source | states |
|---|---|---|
| SourceRewriter.CommentImportsPerLine | components/PreviewFrame.tsx:54 | The regex scan of pass 1 equals a line-by-line rewrite. In each line whose first `import ` has ` from ` after it, `// ` goes before that `import `. Every other line is unchanged, and every line terminator stays in place. |
| SourceRewriter.CommentImportsAcrossBreak | components/PreviewFrame.tsx:54 | Pass 1 never matches across a line terminator. A text split at a terminator is rewritten as its two halves separately. |
| SourceRewriter.CommentImportsOneLine | components/PreviewFrame.tsx:54 | On a single line, the regex scan agrees with the per-line rule: comment before the first `import ` exactly when ` from ` follows it. |
| SourceRewriter.CommentImportsKeepsLineBreaks | components/PreviewFrame.tsx:54 | Pass 1 keeps the sequence of line terminators exactly, and so the number of lines. |
| SourceRewriter.CommentImportsOnlyInserts | components/PreviewFrame.tsx:54 | Pass 1 deletes nothing. The input is a subsequence of the output. |
| SourceRewriter.CommentImportsGrows | components/PreviewFrame.tsx:54 | Pass 1 never shortens the text. It strictly lengthens it when the pattern matches anywhere. |
| SourceRewriter.CommentImportsIdentity | components/PreviewFrame.tsx:54 | Pass 1 returns its input exactly when the pattern matches at no position. |
| SourceRewriter.ImportMatchAppend | components/PreviewFrame.tsx:54 | Whether `import .* from .*` matches at a line start depends only on that line. |
| SourceRewriter.LineEnd | components/PreviewFrame.tsx:54 | The end of the first line is the first line terminator, or the end of the text. |
| Text.ReplaceAllLeftmost | components/PreviewFrame.tsx:55-56 | Global replace substitutes the leftmost occurrence. It then continues on the text after that occurrence, so every non-overlapping occurrence found by the scan is replaced. |
| Text.ReplaceAllKeepsPrefix | components/PreviewFrame.tsx:55-56 | Text before the first occurrence of the pattern is copied unchanged. |
| Text.ReplaceAllNoMatch | components/PreviewFrame.tsx:55-56 | With no occurrence of the pattern, global replace returns its input. |
| Text.ReplaceAllEliminates | components/PreviewFrame.tsx:55 | The output holds no occurrence of the pattern when pattern and replacement cannot start inside each other. |
| Text.ReplaceAllPreserves | components/PreviewFrame.tsx:55-56 | An occurrence of a text that cannot overlap a match survives the replace. |
| Text.DeleteAllIsSubsequence | components/PreviewFrame.tsx:56 | Replacing with the empty string keeps every other character in order. |
| SourceRewriter.BindDefaultExportRemovesAll | components/PreviewFrame.tsx:55 | After pass 2 no `export default` remains. |
| SourceRewriter.BindDefaultExportBinds | components/PreviewFrame.tsx:55 | If the text has an `export default`, the result of pass 2 contains `const App =`. |
| SourceRewriter.StripExportsOnlyDeletes | components/PreviewFrame.tsx:56 | Pass 3 keeps all other characters in order. |
| SourceRewriter.StripExportsSplices | components/PreviewFrame.tsx:56 | Pass 3 is one scan: `eexport xport ` becomes `export `, so `export ` can remain. |
| Text.ReplaceAllSplice | components/PreviewFrame.tsx:54-56 | For any pattern whose first character does not recur in it, one global replace of the pattern inside a split copy of itself joins the halves around the replacement and does not rescan them. With an empty replacement the halves form the pattern again, and it survives the pass. |
| SourceRewriter.RewriteIdentity | components/PreviewFrame.tsx:54-56 | Text with no matching import line and no `export ` comes out of all three passes unchanged. |
| SourceRewriter.RewriteBindsApp | components/PreviewFrame.tsx:54-56 | If an `export default` survives pass 1, the rewritten script contains the text `const App =`. The text follows the `// ` that pass 1 inserts when a matching import comes before it on the same line (ScenarioD), and precedes that `// ` when it comes first (ScenarioE). |
| RewriterExamples.ScenarioA | components/PreviewFrame.tsx:54-56 | `export default function App(){ return <div>Hi</div>; }` becomes `const App = function App(){ return <div>Hi</div>; }`. |
| RewriterExamples.ScenarioB | components/PreviewFrame.tsx:54-56 | `import X from 'y';` on its own line is commented out, and the following `export default` becomes `const App =`. |
| RewriterExamples.ScenarioC | components/PreviewFrame.tsx:54-56 | A source with no import and no export is left as it is. |
| RewriterExamples.ScenarioD | components/PreviewFrame.tsx:54-56 | `import a from 'b'; export default App;` becomes `// import a from 'b'; const App = App;`. Pass 1 puts `// ` before the import, so the binding written by pass 2 follows that marker on the same line. |
| RewriterExamples.ScenarioE | components/PreviewFrame.tsx:54-56 | `export default App; import X from 'y';` becomes `const App = App; // import X from 'y';`. The `// ` goes before the `import `, so the binding earlier on the same line precedes it. |
| SandboxDocument.ExtractBuild | components/PreviewFrame.tsx:16-71 | The built document holds the given script verbatim in its slot, between the fixed prefix and suffix. |
| SandboxDocument.BuildExtract | components/PreviewFrame.tsx:16-71 | Any text that has the fixed prefix and suffix is the template around its slot. |
| SandboxDocument.DocumentLayout | components/PreviewFrame.tsx:40-67 | The document places, in order, the root element, the opening of the `text/babel` script, the script slot, and the error banner of the mount routine. |
| SandboxDocument.PreviewDocument | components/PreviewFrame.tsx:16-71 | The document built for a source holds that source's rewrite in its slot, recoverable verbatim. |
| SandboxDocument.Mount | components/PreviewFrame.tsx:63-67 | The root is rendered from `App` exactly when `App` is defined. Otherwise it shows the fixed banner naming `"App"`. There is no third outcome. |
| PreviewLifecycle.Commit | components/PreviewFrame.tsx:11-12 | The effect runs only when `[code, refreshTrigger]` differs from the last run. An unchanged commit leaves the frame as it is. |
| PreviewLifecycle.RunBody | components/PreviewFrame.tsx:12-80 | Without an iframe the body returns early with nothing created. With one, it creates one fresh URL holding the source for the built document, sets `src` to it, and registers its revocation. The dependencies, the revoked URLs and every other blob stay as they were. |
| PreviewLifecycle.RunCleanup | components/PreviewFrame.tsx:78-80 | The cleanup revokes exactly the URL its effect created. Everything else in the frame stays as it was. |
| PreviewLifecycle.CommitInv | components/PreviewFrame.tsx:73-81 | Each commit preserves the lifecycle invariant. URLs are fresh and increasing. All but the pending one are revoked in order. The pending one is the iframe's `src`. |
| PreviewLifecycle.RunInv | components/PreviewFrame.tsx:11-81 | Every frame reachable by commits and unmounts satisfies the invariant. |
| PreviewLifecycle.AtMostOneLive | components/PreviewFrame.tsx:73-80 | At most one URL is live, and it is the one the iframe shows. |
| PreviewLifecycle.RevokedOnce | components/PreviewFrame.tsx:78-80 | No URL is revoked twice, and only created URLs are revoked. |
| PreviewLifecycle.UnmountRevokesAll | components/PreviewFrame.tsx:78-80 | After unmount every created URL has been revoked and none is live. |
| PreviewLifecycle.SameDepsNoRebuild | components/PreviewFrame.tsx:81 | Equal dependencies create nothing, revoke nothing and keep `src`. |
| PreviewLifecycle.RebuildCreatesOneFreshUrl | components/PreviewFrame.tsx:73-80 | Changed dependencies with an attached iframe create exactly one fresh URL. It holds the new document, `src` points to it, it is the only live URL, and the previous URL is revoked. |
| PreviewLifecycle.RefreshBumpRebuilds | components/PreviewFrame.tsx:81 | Raising `refreshTrigger` alone, with identical code, rebuilds with a new URL. |
| PreviewLifecycle.DetachedCreatesNothing | components/PreviewFrame.tsx:12 | With a null iframe ref no URL is created and `src` is untouched. |
| PreviewLifecycle.TraceSafety | components/PreviewFrame.tsx:11-81 | Over any event sequence from first render, at most one URL is live and none is revoked twice. If the last event is unmount, none is live. |
| GeminiService.BuildPrompt | services/geminiService.ts:34-37 | With no current code, or an empty one, the prompt is the request unchanged. Otherwise it is the fixed template: the request label, the request, the code label, the current code verbatim, and the fixed task trailer at the end. |
| GeminiService.BuildPromptInjective | services/geminiService.ts:36 | The template loses nothing. Equal prompts from requests of equal length come from the same request and the same code. |
| GeminiService.Explain | services/geminiService.ts:54 | A falsy explanation becomes `App generated successfully.`. The result is never empty. |
| GeminiService.Normalise | services/geminiService.ts:48-59 | Success exactly when the call returns a non-empty text that parses. The code is passed through unchecked, and every failure carries the one fixed message. |
| GeminiService.GenerateAppCode | services/geminiService.ts:30-61 | Every failure is `Failed to generate code. Please try again.`. A success carries the parsed code of the reply to the built prompt. |
| GeminiService.EmptyReplyFails | services/geminiService.ts:49 | A thrown call, a missing text or an empty text is a failure. |
| GeminiService.ParsedReplySucceeds | services/geminiService.ts:51-55 | A parsed reply gives its code and its explanation, or the default explanation. |
| ChatInput.TrimStart | components/ChatInterface.tsx:52 | Drops exactly the leading whitespace. The result is the suffix that starts at the first other character. |
| ChatInput.TrimEnd | components/ChatInterface.tsx:52 | Drops exactly the trailing whitespace. The result is the prefix that ends at the last other character. |
| ChatInput.TrimEmptyIff | components/ChatInterface.tsx:52 | `!input.trim()` holds exactly when every character is ECMAScript whitespace or a line terminator. |
| ChatInput.TrimKeepsContent | components/ChatInterface.tsx:52 | Any non-whitespace character survives trimming. |
| ChatInput.Submit | components/ChatInterface.tsx:50-56 | A refused submit changes nothing and sends nothing. An accepted one sends the untrimmed text and the attachments once, then clears both. It is refused exactly when the trimmed text is empty with no attachments, or generation runs. |
| ChatInput.SubmitWhen | components/ChatInterface.tsx:52 | Blank text without attachments is never sent. Nothing is sent while generating. Text with any other character is sent when idle. |
| ChatInput.SendDisabledIsGuard | components/ChatInterface.tsx:172 | The send button is disabled exactly when a submit would be refused. |
| ChatInput.EnterSubmits | components/ChatInterface.tsx:143-146 | Shift+Enter never sends. Enter alone sends exactly when the button is enabled. |
| ChatInput.FilterIndexRemoves | components/ChatInterface.tsx:47 | The index filter drops exactly the entry at the index when the index is in range, and nothing otherwise. |
| ChatInput.RemoveAttachment | components/ChatInterface.tsx:46-48 | The i-th attachment is removed and the others keep their order. An out-of-range index changes nothing. |
| ChatInput.DataUrlPayload | components/ChatInterface.tsx:32 | There is a payload exactly when the data URL has a comma, and the payload has no comma. |
| ChatInput.DataUrlPayloadLocated | components/ChatInterface.tsx:32 | The payload is the text between the first comma and the next comma or the end. |
| ChatInput.DataUrlRoundTrip | components/ChatInterface.tsx:32 | For `data:<type>;base64,<payload>` the payload comes back unchanged. |
| ChatInput.SplitCountsSeparator | components/ChatInterface.tsx:32 | `split` gives two or more fields exactly when the separator occurs. |
| ChatInput.OnFileLoaded | components/ChatInterface.tsx:30-37 | An empty reader result adds nothing. Otherwise one attachment with the file's type and the URL's payload is appended at the end. |
| Text.JoinSplit | components/ChatInterface.tsx:32 | Joining the fields of `split` gives the text back. |
| Text.SplitJoin | components/ChatInterface.tsx:32 | Splitting a join of separator-free fields gives the fields back. |
| HostApp.RequestContext | App.tsx:52 | The current code is passed as context exactly when it differs from the placeholder. |
| HostApp.PromptCarriesCode | App.tsx:52 | When the current code is neither the placeholder nor empty, it sits in the template's code slot. Otherwise the prompt is the request text alone. |
| HostApp.BeginSend | App.tsx:41-44 | The user message is appended and the status becomes generating, "thinking". |
| HostApp.StartCoding | App.tsx:48-49 | The status becomes generating, "coding". Messages, code, counter and view mode stay as they were. |
| HostApp.FinishSend | App.tsx:54-73 | On success the code is replaced, `refreshTrigger` rises by one and the explanation is appended. On failure code and counter stay and the apology is appended. Generation ends either way. |
| HostApp.SendStates | App.tsx:40-74 | A send passes through "thinking", then "coding", then not generating. |
| HostApp.Send | App.tsx:40-74 | A send appends the user message and then exactly one model message, and keeps earlier messages. The counter rises by at most one. |
| HostApp.SendSuccess | App.tsx:54-62 | On success the code is the result's code, the counter rises by exactly one, and the messages are the user's and the explanation. |
| HostApp.SendFailure | App.tsx:64-70 | On failure code and counter are unchanged, and the messages are the user's and the fixed apology. |
| HostApp.SendAllMonotone | App.tsx:40-74 | Over any sequence of sends the counter never decreases and rises by at most one per send. Messages are only appended, two per send. |
| HostApp.CounterNeverNegative | App.tsx:37 | From first render the counter starts at 0 and stays between 0 and the number of sends. |
| HostApp.PaneVisibility | App.tsx:127-159 | The code pane shows in CODE and SPLIT. The preview pane and its toolbar show in PREVIEW and SPLIT. At least one pane always shows, and both only in SPLIT. |

## Left out

- Babel compilation, React rendering, CDN script loading and Tailwind run inside the iframe. The model does not say whether the rewritten code compiles. For example, `export default App;` becomes `const App = App;`.
- SandboxDocument.DocumentLayout: shows the rewritten text in its slot inside the `text/babel` script, but not that it occurs only once. A source that is also a piece of the template, such as the empty text or `<div`, occurs elsewhere in the document too.
- Strings are sequences of Unicode scalar values, while JavaScript strings are sequences of UTF-16 code units. A lone surrogate, which `JSON.parse` can produce, has no representation here, and the lengths in GeminiService.BuildPromptInjective and SandboxDocument.ExtractScript count scalar values, not code units. No output of the modelled code depends on the difference.
- The iframe `sandbox` attribute and blob/same-origin security are browser policy, not program logic.
- The Gemini SDK call, `JSON.parse`, `FileReader`, the 600 ms `setTimeout` and `Date.now` are oracles or parameters. The system instruction text is sent to the SDK, and the model leaves it out.
- GeminiService.Normalise: a parsed reply without a `code` string is not modelled; `Parsed.code` is always a string. In services/geminiService.ts:52-53 such a reply still succeeds with `code` undefined. App.tsx:54 then stores it, and the `code.replace` call at components/PreviewFrame.tsx:54 throws inside the effect. A truthy non-string `explanation` is not modelled either.
- SourceRewriter.RewriteBindsApp: states that the text `const App =` survives, not that the script binds `App`, because the rewriter works on text and the model has no JavaScript lexer. An `export default` after a matching import on the same line ends up after the inserted `// ` (RewriterExamples.ScenarioD); the mount routine then shows its banner unless something else in the script binds `App`. One before the import comes ahead of the `// ` (RewriterExamples.ScenarioE). The `// ` can also land inside a string literal, as in `'import a from b'`, in which case the code after it is not commented out at all.
- HostApp.Send: the attachments ChatInterface hands over are dropped by `handleSendMessage`, and the model drops them too. Concurrent sends are not modelled. The textarea and button are disabled while generating.
- The device preview toggle and the view-mode buttons only set state, and are not modelled. Layout classes and scroll-into-view are also left out.
- components/CodeEditor.tsx is display plus a clipboard write. components/SettingsPanel.tsx is a form that App.tsx never mounts. vite.config.ts is build configuration. None of them is part of this model.
- The `rendering` step exists in `types.ts`. App.tsx never sets it.
