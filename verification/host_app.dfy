/** The host application (App.tsx, lines 10-74 and 127-171): the state it
    keeps, what sending a message does to it, and which panes each view mode
    shows. */
module HostApp {
  import opened Base
  import opened Types
  import Text
  import GeminiService

  /** The placeholder component the editor starts with. */
  const InitialCode :=
    "import React from 'react';\n" +
    "import { Sparkles } from 'lucide-react';\n" +
    "\n" +
    "export default function App() {\n" +
    "  return (\n" +
    "    <div className=\"min-h-screen bg-slate-50 flex flex-col items-center justify-center text-center p-4\">\n" +
    "      <div className=\"bg-white p-8 rounded-2xl shadow-xl max-w-md w-full border border-slate-100\">\n" +
    "        <div className=\"w-16 h-16 bg-blue-50 text-blue-600 rounded-full flex items-center justify-center mx-auto mb-6\">\n" +
    "          <Sparkles size={32} />\n" +
    "        </div>\n" +
    "        <h1 className=\"text-2xl font-bold text-slate-900 mb-2\">Ready to Build</h1>\n" +
    "        <p className=\"text-slate-600 mb-6\">\n" +
    "          Describe what you want to create in the chat on the left.\n" +
    "        </p>\n" +
    "        <div className=\"text-xs text-slate-400 bg-slate-50 p-3 rounded-lg border border-slate-100\">\n" +
    "          Try: \"A login page for a travel app\" or \"M\U{1ED9}t trang dashboard qu\U{1EA3}n l\U{00FD} b\U{00E1}n h\U{00E0}ng\"\n" +
    "        </div>\n" +
    "      </div>\n" +
    "    </div>\n" +
    "  );\n" +
    "}"

  /** The reply shown when generation fails. */
  const Apology := "Sorry, I encountered an error while generating the code. Please try again."

  /** The application's state; the device preview toggle is left out. */
  datatype Host = Host(
    messages: seq<ChatMessage>,
    currentCode: string,
    status: GenerationStatus,
    viewMode: ViewMode,
    refreshTrigger: int)

  /** The state on first render. */
  const InitialHost := Host([], InitialCode, Idle, Split, 0)

  /** The code handed to the service as context: the current code, unless it
      is still the placeholder. */
  function RequestContext(currentCode: string): (r: Option<string>)
    ensures r.Some? <==> currentCode != InitialCode
    ensures r.Some? ==> r.value == currentCode
  {
    if currentCode != InitialCode then Some(currentCode) else None
  }

  // ---------------------------------------------------------------------------
  // The phases of handleSendMessage

  /** The user's message is appended and the status becomes "thinking". */
  function BeginSend(h: Host, content: string, now: int): (g: Host)
    ensures g.messages == h.messages + [ChatMessage(User, content, now, None)]
    ensures g.status == GenerationStatus(true, Some(Thinking))
    ensures g.currentCode == h.currentCode && g.refreshTrigger == h.refreshTrigger && g.viewMode == h.viewMode
  {
    h.(messages := h.messages + [ChatMessage(User, content, now, None)],
       status := GenerationStatus(true, Some(Thinking)))
  }

  /** After the short delay the status becomes "coding". */
  function StartCoding(h: Host): (g: Host)
    ensures g.status == GenerationStatus(true, Some(Coding))
    ensures g.messages == h.messages && g.currentCode == h.currentCode && g.refreshTrigger == h.refreshTrigger
    ensures g.viewMode == h.viewMode
  {
    h.(status := GenerationStatus(true, Some(Coding)))
  }

  /** The service's outcome arrives: on success the code is replaced, the
      preview is forced to reload and the explanation is appended; on failure
      only the apology is appended. Either way generation ends. */
  function FinishSend(h: Host, outcome: Result<GeneratedCode>, now: int): (g: Host)
    ensures g.status == Idle && g.viewMode == h.viewMode
    ensures |g.messages| == |h.messages| + 1 && g.messages[..|h.messages|] == h.messages
    ensures g.messages[|h.messages|].role == Model
    ensures outcome.Success? ==>
      && g.currentCode == outcome.value.code
      && g.refreshTrigger == h.refreshTrigger + 1
      && g.messages[|h.messages|].content == outcome.value.explanation
    ensures outcome.Failure? ==>
      && g.currentCode == h.currentCode
      && g.refreshTrigger == h.refreshTrigger
      && g.messages[|h.messages|].content == Apology
  {
    var reply := match outcome
      case Success(r) => ChatMessage(Model, r.explanation, now, None)
      case Failure(_) => ChatMessage(Model, Apology, now, None);
    var h' := if outcome.Success?
      then h.(currentCode := outcome.value.code, refreshTrigger := h.refreshTrigger + 1)
      else h;
    assert (h.messages + [reply])[..|h.messages|] == h.messages;
    h'.(messages := h.messages + [reply], status := Idle)
  }

  /** The three states one send passes through, with the service called on
      the request and the context captured when the send began. */
  function SendStates(h: Host, content: string, sdk: string -> GeminiService.Reply,
                      parse: string -> Option<GeminiService.Parsed>, t0: int, t1: int): (s: seq<Host>)
    ensures |s| == 3
    ensures s[0].status == GenerationStatus(true, Some(Thinking))
    ensures s[1].status == GenerationStatus(true, Some(Coding))
    ensures s[2].status == Idle
  {
    var started := BeginSend(h, content, t0);
    var coding := StartCoding(started);
    var outcome := GeminiService.GenerateAppCode(content, RequestContext(h.currentCode), sdk, parse);
    [started, coding, FinishSend(coding, outcome, t1)]
  }

  /** `handleSendMessage(content)` from start to end. */
  function Send(h: Host, content: string, sdk: string -> GeminiService.Reply,
                parse: string -> Option<GeminiService.Parsed>, t0: int, t1: int): (g: Host)
    ensures g.status == Idle
    ensures |g.messages| == |h.messages| + 2 && g.messages[..|h.messages|] == h.messages
    ensures g.messages[|h.messages|] == ChatMessage(User, content, t0, None)
    ensures g.messages[|h.messages| + 1].role == Model
    ensures g.refreshTrigger == h.refreshTrigger || g.refreshTrigger == h.refreshTrigger + 1
  {
    var g := SendStates(h, content, sdk, parse, t0, t1)[2];
    assert g.messages[..|h.messages| + 1] == h.messages + [ChatMessage(User, content, t0, None)];
    assert g.messages[..|h.messages|] == g.messages[..|h.messages| + 1][..|h.messages|];
    g
  }

  /** A send the service answers succeeds: the new code is shown, the preview
      counter rises by one and the explanation is the model's reply. */
  lemma SendSuccess(h: Host, content: string, sdk: string -> GeminiService.Reply,
                    parse: string -> Option<GeminiService.Parsed>, t0: int, t1: int)
    requires GeminiService.GenerateAppCode(content, RequestContext(h.currentCode), sdk, parse).Success?
    ensures var r := GeminiService.GenerateAppCode(content, RequestContext(h.currentCode), sdk, parse).value;
      var g := Send(h, content, sdk, parse, t0, t1);
      && g.currentCode == r.code
      && g.refreshTrigger == h.refreshTrigger + 1
      && g.messages == h.messages + [ChatMessage(User, content, t0, None), ChatMessage(Model, r.explanation, t1, None)]
  {
    var g := Send(h, content, sdk, parse, t0, t1);
    assert g.messages == g.messages[..|h.messages|] + [g.messages[|h.messages|], g.messages[|h.messages| + 1]];
  }

  /** A failed send keeps the code and the preview counter and answers with
      the apology. */
  lemma SendFailure(h: Host, content: string, sdk: string -> GeminiService.Reply,
                    parse: string -> Option<GeminiService.Parsed>, t0: int, t1: int)
    requires GeminiService.GenerateAppCode(content, RequestContext(h.currentCode), sdk, parse).Failure?
    ensures var g := Send(h, content, sdk, parse, t0, t1);
      && g.currentCode == h.currentCode
      && g.refreshTrigger == h.refreshTrigger
      && g.messages == h.messages + [ChatMessage(User, content, t0, None), ChatMessage(Model, Apology, t1, None)]
  {
    var g := Send(h, content, sdk, parse, t0, t1);
    assert g.messages == g.messages[..|h.messages|] + [g.messages[|h.messages|], g.messages[|h.messages| + 1]];
  }

  /** When the current code is neither the placeholder nor empty it sits in
      the template's code slot; otherwise the prompt is the request text alone. */
  lemma PromptCarriesCode(currentCode: string, content: string)
    ensures var p := GeminiService.BuildPrompt(content, RequestContext(currentCode));
      && (currentCode != InitialCode && currentCode != "" ==>
            Text.OccursAt(p, currentCode, |GeminiService.RequestLabel| + |content| + |GeminiService.CodeLabel|))
      && (currentCode == InitialCode || currentCode == "" ==> p == content)
  {
  }

  // ---------------------------------------------------------------------------
  // Many sends

  /** What a sequence of sends makes of the state; each entry is one send's
      content, service oracles and clock readings. */
  datatype Request = Request(content: string, sdk: string -> GeminiService.Reply,
                             parse: string -> Option<GeminiService.Parsed>, t0: int, t1: int)

  function SendAll(h: Host, rs: seq<Request>): Host
    decreases |rs|
  {
    if |rs| == 0 then h
    else
      var r := rs[0];
      SendAll(Send(h, r.content, r.sdk, r.parse, r.t0, r.t1), rs[1..])
  }

  /** Over any sequence of sends the preview counter never falls, rises by at
      most one per send, and the conversation only grows, two messages a send. */
  lemma {:induction false} SendAllMonotone(h: Host, rs: seq<Request>)
    ensures var g := SendAll(h, rs);
      && h.refreshTrigger <= g.refreshTrigger <= h.refreshTrigger + |rs|
      && |g.messages| == |h.messages| + 2 * |rs|
      && g.messages[..|h.messages|] == h.messages
    decreases |rs|
  {
    if |rs| > 0 {
      var r := rs[0];
      var h1 := Send(h, r.content, r.sdk, r.parse, r.t0, r.t1);
      SendAllMonotone(h1, rs[1..]);
      var g := SendAll(h, rs);
      assert g.messages[..|h.messages|] == g.messages[..|h1.messages|][..|h.messages|];
    }
  }

  /** From the first render on, the counter starts at zero and never goes
      below it. */
  lemma CounterNeverNegative(rs: seq<Request>)
    ensures 0 <= SendAll(InitialHost, rs).refreshTrigger <= |rs|
  {
    SendAllMonotone(InitialHost, rs);
  }

  // ---------------------------------------------------------------------------
  // View modes

  /** The code pane (line 152). */
  predicate ShowsCode(m: ViewMode) {
    m == Code || m == Split
  }

  /** The preview pane (line 159). */
  predicate ShowsPreview(m: ViewMode) {
    m == Preview || m == Split
  }

  /** The preview toolbar (line 127). */
  predicate ShowsToolbar(m: ViewMode) {
    m == Preview || m == Split
  }

  /** Every mode shows a pane; only the split mode shows both; the toolbar
      goes with the preview pane. */
  lemma PaneVisibility(m: ViewMode)
    ensures ShowsCode(m) || ShowsPreview(m)
    ensures ShowsCode(m) && ShowsPreview(m) <==> m == Split
    ensures ShowsToolbar(m) <==> ShowsPreview(m)
    ensures ShowsCode(m) <==> m != Preview
  {
  }
}
