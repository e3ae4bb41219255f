/** The generation service wrapper (services/geminiService.ts, lines 30-61):
    the prompt it sends and how it turns the model's reply into a result or the
    one error it ever raises. The SDK call and `JSON.parse` are oracles passed in
    as functions. */
module GeminiService {
  import opened Base
  import opened Text
  import opened Types

  /** The single error every failure is reported as. */
  const FailureMessage := "Failed to generate code. Please try again."

  /** What stands in for a missing or empty explanation. */
  const DefaultExplanation := "App generated successfully."

  const RequestLabel := "Original Request: "
  const CodeLabel := "\n\nCurrent Code:\n"
  const TaskTrailer := "\n\nTask: Update the code based on the new request. Maintain existing functionality unless asked to change."

  /** A string is truthy in JavaScript when it is not empty; an absent one is falsy. */
  predicate Truthy(s: Option<string>) {
    s.Some? && s.value != ""
  }

  /** The prompt sent for a request: the request alone when there is no current
      code (absent or empty), otherwise a fixed template holding the request and
      then the current code. */
  function BuildPrompt(prompt: string, currentCode: Option<string>): (r: string)
    ensures !Truthy(currentCode) ==> r == prompt
    ensures Truthy(currentCode) ==>
      && StartsWith(r, RequestLabel)
      && OccursAt(r, prompt, |RequestLabel|)
      && OccursAt(r, CodeLabel, |RequestLabel| + |prompt|)
      && OccursAt(r, currentCode.value, |RequestLabel| + |prompt| + |CodeLabel|)
      && |r| == |RequestLabel| + |prompt| + |CodeLabel| + |currentCode.value| + |TaskTrailer|
      && r[|r| - |TaskTrailer|..] == TaskTrailer
  {
    if !Truthy(currentCode) then prompt
    else
      TemplateLayout(RequestLabel, prompt, CodeLabel, currentCode.value, TaskTrailer);
      RequestLabel + prompt + CodeLabel + currentCode.value + TaskTrailer
  }

  /** Where each piece of a five-part concatenation sits. */
  lemma TemplateLayout(a: string, b: string, c: string, d: string, e: string)
    ensures var r := a + b + c + d + e;
      && StartsWith(r, a)
      && OccursAt(r, b, |a|)
      && OccursAt(r, c, |a| + |b|)
      && OccursAt(r, d, |a| + |b| + |c|)
      && r[|r| - |e|..] == e
  {
    var r := a + b + c + d + e;
    assert r == a + b + (c + d + e);
    OccursAtJoin(a, b, c + d + e);
    assert r == (a + b) + c + (d + e);
    OccursAtJoin(a + b, c, d + e);
    assert r == (a + b + c) + d + e;
    OccursAtJoin(a + b + c, d, e);
    assert r[|r| - |e|..] == e;
  }

  /** Two requests built into the same template with the same request length
      are the same request about the same code: the template loses nothing. */
  lemma BuildPromptInjective(p1: string, c1: string, p2: string, c2: string)
    requires c1 != "" && c2 != "" && |p1| == |p2|
    requires BuildPrompt(p1, Some(c1)) == BuildPrompt(p2, Some(c2))
    ensures p1 == p2 && c1 == c2
  {
    var r := BuildPrompt(p1, Some(c1));
    var k := |RequestLabel|;
    assert r[k..k + |p1|] == p1 == p2;
    assert |c1| == |c2|;
    var m := k + |p1| + |CodeLabel|;
    assert r[m..m + |c1|] == c1 == c2;
  }

  /** The SDK call: it throws, or it answers with a text that may be missing. */
  datatype Reply = Threw | Replied(text: Option<string>)

  /** What `JSON.parse` yields when it succeeds: the `code` field and the
      `explanation` field, the latter None when absent; an empty explanation
      is `Some("")`, which `Truthy` treats as falsy like None. */
  datatype Parsed = Parsed(code: string, explanation: Option<string>)

  /** `parsed.explanation || "App generated successfully."` */
  function Explain(explanation: Option<string>): (r: string)
    ensures r != ""
    ensures Truthy(explanation) ==> r == explanation.value
    ensures !Truthy(explanation) ==> r == DefaultExplanation
  {
    if Truthy(explanation) then explanation.value else DefaultExplanation
  }

  /** Turns the SDK's reply into the service's result. A thrown call, a missing
      or empty text, and a text the parser rejects all end in the one fixed
      error; otherwise the parsed code is passed through unchecked with a
      non-empty explanation. */
  function Normalise(reply: Reply, parse: string -> Option<Parsed>): (r: Result<GeneratedCode>)
    ensures r.Failure? ==> r.error == FailureMessage
    ensures r.Success? <==> reply.Replied? && Truthy(reply.text) && parse(reply.text.value).Some?
    ensures r.Success? ==> r.value.code == parse(reply.text.value).value.code && r.value.explanation != ""
  {
    match reply
    case Threw => Failure(FailureMessage)
    case Replied(text) =>
      if !Truthy(text) then Failure(FailureMessage)
      else match parse(text.value)
        case None => Failure(FailureMessage)
        case Some(p) => Success(GeneratedCode(p.code, Explain(p.explanation)))
  }

  /** `generateAppCode(prompt, currentCode)`: the SDK receives the built prompt
      and its reply is normalised. */
  function GenerateAppCode(prompt: string, currentCode: Option<string>,
                           sdk: string -> Reply, parse: string -> Option<Parsed>): (r: Result<GeneratedCode>)
    ensures r.Failure? ==> r.error == FailureMessage
    ensures r.Success? ==>
      var reply := sdk(BuildPrompt(prompt, currentCode));
      && reply.Replied? && Truthy(reply.text)
      && parse(reply.text.value).Some?
      && r.value.code == parse(reply.text.value).value.code
      && r.value.explanation != ""
  {
    Normalise(sdk(BuildPrompt(prompt, currentCode)), parse)
  }

  /** A reply without text, or with an empty one, is a failure whatever the
      parser would have said. */
  lemma EmptyReplyFails(prompt: string, currentCode: Option<string>,
                        sdk: string -> Reply, parse: string -> Option<Parsed>)
    requires sdk(BuildPrompt(prompt, currentCode)) in {Replied(None), Replied(Some("")), Threw}
    ensures GenerateAppCode(prompt, currentCode, sdk, parse) == Failure(FailureMessage)
  {
  }

  /** A well-formed reply succeeds with the parsed code and, when the parsed
      explanation is falsy, the default one. */
  lemma ParsedReplySucceeds(prompt: string, currentCode: Option<string>,
                            sdk: string -> Reply, parse: string -> Option<Parsed>)
    requires sdk(BuildPrompt(prompt, currentCode)).Replied?
    requires Truthy(sdk(BuildPrompt(prompt, currentCode)).text)
    requires parse(sdk(BuildPrompt(prompt, currentCode)).text.value).Some?
    ensures var p := parse(sdk(BuildPrompt(prompt, currentCode)).text.value).value;
      GenerateAppCode(prompt, currentCode, sdk, parse)
        == Success(GeneratedCode(p.code, if Truthy(p.explanation) then p.explanation.value else DefaultExplanation))
  {
  }
}
