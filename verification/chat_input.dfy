/** The chat composer's rules (components/ChatInterface.tsx): the submit guard
    and the send button's disabled state, removal of an attachment by index,
    the payload taken from a loaded file's data URL, and the Enter key. */
module ChatInput {
  import opened Base
  import opened Text
  import opened Types

  // ---------------------------------------------------------------------------
  // String.prototype.trim

  /** The characters `trim` removes: the WhiteSpace and LineTerminator code
      points of section 12.2 and 12.3 of ECMAScript (ECMA-262), that is TAB, VT,
      FF, the byte order mark, every space separator and the four line
      terminators. */
  predicate IsTrimmable(c: char) {
    || c == '\t' || c == '\U{000B}' || c == '\U{000C}' || c == ' ' || c == '\U{00A0}'
    || c == '\U{FEFF}' || c == '\U{1680}' || ('\U{2000}' <= c <= '\U{200A}')
    || c == '\U{202F}' || c == '\U{205F}' || c == '\U{3000}'
    || c == '\n' || c == '\r' || c == '\U{2028}' || c == '\U{2029}'
  }

  predicate AllTrimmable(s: string) {
    forall i | 0 <= i < |s| :: IsTrimmable(s[i])
  }

  /** Drops leading trimmable characters: the result is the suffix of the input
      that starts at its first other character. */
  function TrimStart(s: string): (r: string)
    ensures |r| <= |s| && r == s[|s| - |r|..]
    ensures AllTrimmable(s[..|s| - |r|])
    ensures r == [] || !IsTrimmable(r[0])
    decreases |s|
  {
    if |s| > 0 && IsTrimmable(s[0]) then
      var r := TrimStart(s[1..]);
      assert s[..|s| - |r|] == [s[0]] + s[1..][..|s[1..]| - |r|];
      r
    else s
  }

  /** Drops trailing trimmable characters: the result is the prefix of the
      input that ends at its last other character. */
  function TrimEnd(s: string): (r: string)
    ensures |r| <= |s| && r == s[..|r|]
    ensures AllTrimmable(s[|r|..])
    ensures r == [] || !IsTrimmable(r[|r| - 1])
    decreases |s|
  {
    if |s| > 0 && IsTrimmable(s[|s| - 1]) then
      var init := s[..|s| - 1];
      var r := TrimEnd(init);
      assert init[..|r|] == s[..|r|];
      assert s[|r|..] == init[|r|..] + [s[|s| - 1]];
      r
    else s
  }

  /** `s.trim()`. */
  function Trim(s: string): string {
    TrimEnd(TrimStart(s))
  }

  /** The trimmed text is empty exactly when every character is trimmable;
      this is when `!input.trim()` holds. */
  lemma TrimEmptyIff(s: string)
    ensures Trim(s) == [] <==> AllTrimmable(s)
  {
    var t := TrimStart(s);
    if Trim(s) == [] {
      assert AllTrimmable(t[0..]);
      assert |t| == 0;
      assert s[..|s|] == s;
    }
  }

  /** A text with a character outside the trimmable set survives trimming
      with that character in it. */
  lemma TrimKeepsContent(s: string, i: int)
    requires 0 <= i < |s| && !IsTrimmable(s[i])
    ensures s[i] in Trim(s)
  {
    var t := TrimStart(s);
    var k := |s| - |t|;
    assert i >= k by {
      if i < k {
        assert false;
      }
    }
    assert t[i - k] == s[i];
    var r := TrimEnd(t);
    assert i - k < |r| by {
      if i - k >= |r| {
        assert false;
      }
    }
    assert r[i - k] == t[i - k];
  }

  // ---------------------------------------------------------------------------
  // The composer

  /** The text being typed and the files attached to it. */
  datatype Composer = Composer(input: string, attachments: seq<Attachment>)

  const EmptyComposer := Composer("", [])

  /** What `onSendMessage` receives. */
  datatype Submission = Submission(message: string, attachments: seq<Attachment>)

  /** The guard of `handleSubmit`: nothing to send, or a generation in progress. */
  predicate SubmitBlocked(c: Composer, isGenerating: bool) {
    (Trim(c.input) == [] && |c.attachments| == 0) || isGenerating
  }

  /** The send button's `disabled` attribute. */
  predicate SendDisabled(c: Composer, isGenerating: bool) {
    (Trim(c.input) == [] && |c.attachments| == 0) || isGenerating
  }

  /** The button is disabled exactly when a submit would be refused. */
  lemma SendDisabledIsGuard(c: Composer, isGenerating: bool)
    ensures SendDisabled(c, isGenerating) <==> SubmitBlocked(c, isGenerating)
  {
  }

  /** `handleSubmit`: a refused submit changes nothing and sends nothing; an
      accepted one sends the untrimmed text with the attachments, once, and
      clears both. */
  function Submit(c: Composer, isGenerating: bool): (r: (Composer, Option<Submission>))
    ensures r.1.None? <==> SubmitBlocked(c, isGenerating)
    ensures r.1.None? ==> r.0 == c
    ensures r.1.Some? ==> r.1.value == Submission(c.input, c.attachments) && r.0 == EmptyComposer
  {
    if SubmitBlocked(c, isGenerating) then (c, None)
    else (EmptyComposer, Some(Submission(c.input, c.attachments)))
  }

  /** A blank text with no attachment is never sent, and nothing is sent while
      a generation runs; a text with any other character is sent when idle. */
  lemma SubmitWhen(c: Composer, isGenerating: bool)
    ensures AllTrimmable(c.input) && |c.attachments| == 0 ==> Submit(c, isGenerating).1.None?
    ensures isGenerating ==> Submit(c, isGenerating).1.None?
    ensures !isGenerating && !AllTrimmable(c.input) ==> Submit(c, isGenerating).1.Some?
  {
    TrimEmptyIff(c.input);
  }

  /** The textarea's key handler: Enter without Shift submits (through the same
      guard); every other key leaves the composer to the text field. */
  function OnKeyDown(c: Composer, key: string, shiftKey: bool, isGenerating: bool): (r: (Composer, Option<Submission>))
    ensures key != "Enter" || shiftKey ==> r == (c, None)
    ensures key == "Enter" && !shiftKey ==> r == Submit(c, isGenerating)
  {
    if key == "Enter" && !shiftKey then Submit(c, isGenerating) else (c, None)
  }

  /** Shift+Enter never sends; Enter alone sends whatever the button would. */
  lemma EnterSubmits(c: Composer, isGenerating: bool)
    ensures OnKeyDown(c, "Enter", true, isGenerating).1.None?
    ensures OnKeyDown(c, "Enter", false, isGenerating).1.Some? <==> !SendDisabled(c, isGenerating)
  {
  }

  // ---------------------------------------------------------------------------
  // Removing an attachment

  /** `xs.filter((_, i) => i !== index)` over the entries from position `from`
      on: keeps every entry whose position differs from `index`. */
  function FilterIndex<T>(xs: seq<T>, index: int, from: int): seq<T>
    decreases |xs|
  {
    if |xs| == 0 then []
    else (if from == index then [] else [xs[0]]) + FilterIndex(xs[1..], index, from + 1)
  }

  /** An index the entries from `from` on do not reach keeps them all; one they
      reach drops exactly that entry. */
  lemma {:induction false} FilterIndexRemoves<T>(xs: seq<T>, index: int, from: int)
    ensures !(from <= index < from + |xs|) ==> FilterIndex(xs, index, from) == xs
    ensures from <= index < from + |xs| ==>
      FilterIndex(xs, index, from) == xs[..index - from] + xs[index - from + 1..]
    decreases |xs|
  {
    if |xs| > 0 {
      FilterIndexRemoves(xs[1..], index, from + 1);
      if from == index {
        assert FilterIndex(xs[1..], index, from + 1) == xs[1..];
      } else if from < index < from + |xs| {
        assert xs[..index - from] == [xs[0]] + xs[1..][..index - from - 1];
        assert xs[index - from + 1..] == xs[1..][index - from..];
      } else {
        assert [xs[0]] + xs[1..] == xs;
      }
    }
  }

  /** `removeAttachment(index)`: exactly the entry at `index` goes, the others
      keep their order; an index outside the list changes nothing. */
  function RemoveAttachment(c: Composer, index: int): (r: Composer)
    ensures r.input == c.input
    ensures 0 <= index < |c.attachments| ==>
      && |r.attachments| == |c.attachments| - 1
      && (forall j | 0 <= j < index :: r.attachments[j] == c.attachments[j])
      && (forall j | index <= j < |r.attachments| :: r.attachments[j] == c.attachments[j + 1])
    ensures !(0 <= index < |c.attachments|) ==> r == c
  {
    FilterIndexRemoves(c.attachments, index, 0);
    c.(attachments := FilterIndex(c.attachments, index, 0))
  }

  // ---------------------------------------------------------------------------
  // Loading a file

  /** `dataUrl.split(',')[1]`: the text between the first comma and the next
      one (or the end), absent when there is no comma. */
  function DataUrlPayload(url: string): (r: Option<string>)
    ensures r.Some? <==> ',' in url
    ensures r.Some? ==> ',' !in r.value
  {
    SplitCountsSeparator(url, ',');
    var fields := Text.Split(url, ',');
    if |fields| >= 2 then Some(fields[1]) else None
  }

  /** A text splits into two or more fields exactly when it holds the separator. */
  lemma {:induction false} SplitCountsSeparator(s: string, sep: char)
    ensures |Text.Split(s, sep)| >= 2 <==> sep in s
    decreases |s|
  {
    if |s| > 0 {
      SplitCountsSeparator(s[1..], sep);
      assert s == [s[0]] + s[1..];
    }
  }

  /** Where the payload sits: after a comma-free head and its comma, followed by
      the end of the URL or the next comma. */
  lemma DataUrlPayloadLocated(url: string) returns (head: string, rest: string)
    requires ',' in url
    ensures ',' !in head
    ensures url == head + [','] + DataUrlPayload(url).value + rest
    ensures rest == [] || rest[0] == ','
  {
    var fields := Text.Split(url, ',');
    SplitCountsSeparator(url, ',');
    JoinSplit(url, ',');
    head := fields[0];
    var tail := Join(fields[1..], ',');
    assert url == head + [','] + tail;
    if |fields| == 2 {
      rest := [];
      assert tail == fields[1];
    } else {
      rest := [','] + Join(fields[2..], ',');
      assert fields[1..][1..] == fields[2..];
      assert tail == fields[1] + rest;
    }
  }

  /** The browser's data URL for a file, `data:<type>;base64,<payload>`, gives
      back the payload. */
  lemma DataUrlRoundTrip(mimeType: string, payload: string)
    requires ',' !in mimeType && ',' !in payload
    ensures DataUrlPayload("data:" + mimeType + ";base64," + payload) == Some(payload)
  {
    var head := "data:" + mimeType + ";base64";
    assert ',' !in head;
    var fields := [head, payload];
    assert Join(fields[1..], ',') == payload;
    assert Join(fields, ',') == "data:" + mimeType + ";base64," + payload;
    SplitJoin(fields, ',');
  }

  /** The reader's `onload`: an empty result adds nothing; otherwise one
      attachment with the file's type and the URL's payload is appended. */
  function OnFileLoaded(c: Composer, mimeType: string, result: string): (r: Composer)
    ensures result == [] ==> r == c
    ensures result != [] ==>
      && r.input == c.input
      && |r.attachments| == |c.attachments| + 1
      && r.attachments[..|c.attachments|] == c.attachments
      && r.attachments[|c.attachments|].mimeType == mimeType
      && r.attachments[|c.attachments|].data == DataUrlPayload(result)
      && (r.attachments[|c.attachments|].data.Some? <==> ',' in result)
  {
    if result == [] then c
    else
      var a := Attachment(mimeType, DataUrlPayload(result));
      assert (c.attachments + [a])[..|c.attachments|] == c.attachments;
      c.(attachments := c.attachments + [a])
  }
}
