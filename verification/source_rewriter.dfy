/** The rewriter that turns a generated component module into a plain script
    for the preview frame (components/PreviewFrame.tsx, lines 54-56). It makes
    three global replace passes: the first comments out each `import … from …`
    match, the second turns every `export default` into `const App =`, and the
    third deletes every `export `. Each pass is a single left-to-right scan
    over the text. */
module SourceRewriter {
  import opened Base
  import opened Text

  const ImportKeyword := "import "
  const FromKeyword := " from "
  const CommentMarker := "// "
  const DefaultExport := "export default"
  const AppBinding := "const App ="
  const ExportKeyword := "export "

  /** The characters ECMAScript's `.` does not match: LF, CR, LS and PS. */
  predicate IsLineTerminator(c: char) {
    c == '\n' || c == '\r' || c == '\U{2028}' || c == '\U{2029}'
  }

  /** Index of the first line terminator of `s`, or `|s|` if there is none. */
  function LineEnd(s: string): (r: nat)
    ensures r <= |s|
    ensures forall i :: 0 <= i < r ==> !IsLineTerminator(s[i])
    ensures r < |s| ==> IsLineTerminator(s[r])
    decreases |s|
  {
    if |s| == 0 || IsLineTerminator(s[0]) then 0 else 1 + LineEnd(s[1..])
  }

  /** The line terminators of `s`, in order. */
  function LineBreaks(s: string): (r: string)
    ensures forall i :: 0 <= i < |r| ==> IsLineTerminator(r[i])
    decreases |s|
  {
    if |s| == 0 then []
    else if IsLineTerminator(s[0]) then [s[0]] + LineBreaks(s[1..])
    else LineBreaks(s[1..])
  }

  predicate NoLineBreak(s: string) {
    forall i :: 0 <= i < |s| ==> !IsLineTerminator(s[i])
  }

  lemma NoLineBreakAppend(a: string, b: string)
    requires NoLineBreak(a) && NoLineBreak(b)
    ensures NoLineBreak(a + b)
  {
    forall i | 0 <= i < |a + b| ensures !IsLineTerminator((a + b)[i]) {
      if i >= |a| {
        assert (a + b)[i] == b[i - |a|];
      }
    }
  }

  // ---------------------------------------------------------------------------
  // Pass 1: comment out `import … from …` lines
  // ---------------------------------------------------------------------------

  /** `/import .* from .*\/` matches at the start of `s`: `s` begins with
      `import ` and ` from ` begins later on the same line (after the space
      that ends `import `). The match then runs to the end of the line. */
  predicate ImportMatchHere(s: string) {
    StartsWith(s, ImportKeyword) && Contains(s[|ImportKeyword|..LineEnd(s)], FromKeyword)
  }

  /** Pass 1 as the regex engine performs it: at each position either the
      pattern matches, and `// ` is put before the matched rest of the line, or
      the character is copied and the scan moves on by one. */
  function CommentImports(s: string): string
    decreases |s|
  {
    if |s| == 0 then []
    else if ImportMatchHere(s) then
      CommentMarker + s[..LineEnd(s)] + CommentImports(s[LineEnd(s)..])
    else
      [s[0]] + CommentImports(s[1..])
  }

  /** The per-line reading of pass 1, for one line: a line whose first
      `import ` is followed by ` from ` gets `// ` just before that `import `;
      every other line is left alone. */
  function CommentLine(line: string): string {
    match IndexOf(line, ImportKeyword)
    case None => line
    case Some(k) => CommentLineAt(line, k)
  }

  /** The decision for a line whose first `import ` sits at `k`. */
  function CommentLineAt(line: string, k: nat): string
    requires k + |ImportKeyword| <= |line|
  {
    if Contains(line[k + |ImportKeyword|..], FromKeyword)
    then line[..k] + CommentMarker + line[k..]
    else line
  }

  /** The per-line reading of pass 1 for a whole text: lines are rewritten
      one by one and every line terminator is kept where it was. */
  function CommentImportsByLine(s: string): string
    decreases |s|
  {
    var e := LineEnd(s);
    if e == |s| then CommentLine(s)
    else CommentLine(s[..e]) + [s[e]] + CommentImportsByLine(s[e + 1..])
  }

  /** `LineEnd` is the one index that ends the first line. */
  lemma LineEndUnique(s: string, r: nat)
    requires r <= |s| && NoLineBreak(s[..r])
    requires r == |s| || IsLineTerminator(s[r])
    ensures LineEnd(s) == r
  {
    forall i | 0 <= i < r ensures !IsLineTerminator(s[i]) {
      assert s[..r][i] == s[i];
    }
  }

  /** Appending a line break and more text does not move the end of the first line. */
  lemma LineEndAppend(a: string, t: char, b: string)
    requires IsLineTerminator(t)
    ensures LineEnd(a + [t] + b) == LineEnd(a)
  {
    var s := a + [t] + b;
    var e := LineEnd(a);
    assert s[..e] == a[..e];
    assert e == |a| || s[e] == a[e];
    LineEndUnique(s, e);
  }

  /** `import ` holds no line terminator, so a line that starts with it is at least that long. */
  lemma ImportLineLength(s: string)
    requires StartsWith(s, ImportKeyword)
    ensures LineEnd(s) >= |ImportKeyword|
  {
    forall i | 0 <= i < |ImportKeyword| ensures !IsLineTerminator(s[i]) {
      assert s[i] == ImportKeyword[i];
    }
  }

  /** Whether the pattern matches at the start of a line depends on that line only. */
  lemma ImportMatchAppend(a: string, t: char, b: string)
    requires IsLineTerminator(t)
    ensures ImportMatchHere(a + [t] + b) <==> (|a| > 0 && ImportMatchHere(a))
  {
    var s := a + [t] + b;
    LineEndAppend(a, t, b);
    var n := |ImportKeyword|;
    if |a| >= n {
      assert s[..n] == a[..n];
      if StartsWith(a, ImportKeyword) {
        ImportLineLength(a);
        assert s[n..LineEnd(s)] == a[n..LineEnd(a)];
      }
    } else {
      assert !StartsWith(a, ImportKeyword);
      if |s| >= n {
        assert s[..n][|a|] == t;
        assert ImportKeyword[|a|] != t;
      }
    }
  }

  /** Pass 1 works line by line: a line terminator splits it into independent halves. */
  lemma {:induction false} CommentImportsAcrossBreak(a: string, t: char, b: string)
    requires IsLineTerminator(t)
    ensures CommentImports(a + [t] + b) == CommentImports(a) + [t] + CommentImports(b)
    decreases |a|
  {
    var s := a + [t] + b;
    ImportMatchAppend(a, t, b);
    if |a| == 0 {
      assert s == [t] + b;
      assert s[1..] == b;
    } else if ImportMatchHere(a) {
      LineEndAppend(a, t, b);
      ImportLineLength(a);
      var e := LineEnd(a);
      assert s[..e] == a[..e];
      assert s[e..] == a[e..] + [t] + b;
      CommentImportsAcrossBreak(a[e..], t, b);
    } else {
      assert s[1..] == a[1..] + [t] + b;
      CommentImportsAcrossBreak(a[1..], t, b);
    }
  }

  /** A line whose first `import ` has no ` from ` after it does not qualify from
      any later position either. */
  lemma CommentLineUnchangedAfter(line: string)
    requires StartsWith(line, ImportKeyword)
    requires !Contains(line[|ImportKeyword|..], FromKeyword)
    ensures CommentLine(line[1..]) == line[1..]
  {
    var n := |ImportKeyword|;
    var k := IndexOf(line[1..], ImportKeyword);
    if k.Some? && Contains(line[1..][k.value + n..], FromKeyword) {
      assert line[1..][k.value + n..] == line[n..][k.value + 1..];
      ContainsSuffix(line[n..], k.value + 1, FromKeyword);
    }
  }

  /** Past a first character that does not start `import `, the per-line
      reading carries on with the rest of the line. */
  lemma CommentLineShift(line: string)
    requires |line| > 0 && !StartsWith(line, ImportKeyword)
    ensures CommentLine(line) == [line[0]] + CommentLine(line[1..])
  {
    IndexOfTail(line, ImportKeyword);
    assert line == [line[0]] + line[1..];
    match IndexOf(line[1..], ImportKeyword)
    case None =>
    case Some(k) =>
      CommentLineFound(line, k + 1);
      CommentLineFound(line[1..], k);
      SpliceUnderCons(line, k, CommentMarker);
  }

  /** `CommentLine` once the first `import ` is known to sit at `k`. */
  lemma CommentLineFound(line: string, k: nat)
    requires IndexOf(line, ImportKeyword) == Some(k)
    ensures k + |ImportKeyword| <= |line|
    ensures CommentLine(line) == CommentLineAt(line, k)
  {
  }

  /** Inserting before position `k + 1` of a text is inserting before
      position `k` of its tail, behind the first character. */
  lemma SpliceUnderCons(line: string, k: nat, m: string)
    requires k + |ImportKeyword| + 1 <= |line|
    ensures line[k + 1 + |ImportKeyword|..] == line[1..][k + |ImportKeyword|..]
    ensures line[..k + 1] + m + line[k + 1..] == [line[0]] + (line[1..][..k] + m + line[1..][k..])
  {
    assert line[..k + 1] == [line[0]] + line[1..][..k];
    assert line[k + 1..] == line[1..][k..];
  }

  /** On a single line the regex scan agrees with the per-line reading. */
  lemma {:induction false} CommentImportsOneLine(line: string)
    requires NoLineBreak(line)
    ensures CommentImports(line) == CommentLine(line)
    decreases |line|
  {
    if |line| > 0 {
      LineEndUnique(line, |line|);
      assert line[..|line|] == line;
      assert NoLineBreak(line[1..]);
      if StartsWith(line, ImportKeyword) {
        assert OccursAt(line, ImportKeyword, 0);
        IndexOfIsLeftmost(line, ImportKeyword, 0);
        if !ImportMatchHere(line) {
          CommentImportsOneLine(line[1..]);
          CommentLineUnchangedAfter(line);
        }
      } else {
        CommentImportsOneLine(line[1..]);
        CommentLineShift(line);
      }
    }
  }

  /** The regex scan of pass 1 equals the per-line reading on every text. */
  lemma {:induction false} CommentImportsPerLine(s: string)
    ensures CommentImports(s) == CommentImportsByLine(s)
    decreases |s|
  {
    var e := LineEnd(s);
    assert NoLineBreak(s[..e]);
    if e == |s| {
      assert s[..e] == s;
      CommentImportsOneLine(s);
    } else {
      assert s == s[..e] + [s[e]] + s[e + 1..];
      CommentImportsAcrossBreak(s[..e], s[e], s[e + 1..]);
      CommentImportsOneLine(s[..e]);
      CommentImportsPerLine(s[e + 1..]);
    }
  }

  lemma {:induction false} LineBreaksAppend(a: string, b: string)
    ensures LineBreaks(a + b) == LineBreaks(a) + LineBreaks(b)
    decreases |a|
  {
    if |a| > 0 {
      assert (a + b)[1..] == a[1..] + b;
      LineBreaksAppend(a[1..], b);
    } else {
      assert a + b == b;
    }
  }

  lemma {:induction false} LineBreaksNone(s: string)
    requires NoLineBreak(s)
    ensures LineBreaks(s) == []
    decreases |s|
  {
    if |s| > 0 {
      LineBreaksNone(s[1..]);
    }
  }

  /** Pass 1 keeps every line terminator, in order, and adds none. */
  lemma {:induction false} CommentImportsKeepsLineBreaks(s: string)
    ensures LineBreaks(CommentImports(s)) == LineBreaks(s)
    decreases |s|
  {
    if |s| > 0 {
      if ImportMatchHere(s) {
        ImportLineLength(s);
        var e := LineEnd(s);
        CommentImportsKeepsLineBreaks(s[e..]);
        LineBreaksAppend(CommentMarker + s[..e], CommentImports(s[e..]));
        LineBreaksAppend(CommentMarker, s[..e]);
        LineBreaksNone(CommentMarker);
        LineBreaksNone(s[..e]);
        LineBreaksAppend(s[..e], s[e..]);
        assert s[..e] + s[e..] == s;
      } else {
        CommentImportsKeepsLineBreaks(s[1..]);
        LineBreaksAppend([s[0]], CommentImports(s[1..]));
        LineBreaksAppend([s[0]], s[1..]);
        assert [s[0]] + s[1..] == s;
      }
    }
  }

  /** Pass 1 deletes nothing: the input is what is left of the output once the
      inserted markers are taken out. */
  lemma {:induction false} CommentImportsOnlyInserts(s: string)
    ensures IsSubsequence(s, CommentImports(s))
    decreases |s|
  {
    if |s| > 0 {
      if ImportMatchHere(s) {
        ImportLineLength(s);
        var e := LineEnd(s);
        var rest := CommentImports(s[e..]);
        CommentImportsOnlyInserts(s[e..]);
        SubsequenceSamePrefix(s[..e], s[e..], rest);
        SubsequenceOfLonger(s[..e] + s[e..], CommentMarker, s[..e] + rest);
        assert s[..e] + s[e..] == s;
        assert CommentMarker + (s[..e] + rest) == CommentImports(s);
      } else {
        CommentImportsOnlyInserts(s[1..]);
        SubsequenceSamePrefix([s[0]], s[1..], CommentImports(s[1..]));
        assert [s[0]] + s[1..] == s;
      }
    }
  }

  /** No position of `s` starts a match of the import pattern. */
  predicate NoImportMatch(s: string) {
    forall i :: 0 <= i < |s| ==> !ImportMatchHere(s[i..])
  }

  /** Pass 1 never shortens the text, and lengthens it whenever the pattern
      matches anywhere (a skipped match lies on a line already commented). */
  lemma {:induction false} CommentImportsGrows(s: string)
    ensures |CommentImports(s)| >= |s|
    ensures !NoImportMatch(s) ==> |CommentImports(s)| > |s|
    decreases |s|
  {
    if |s| > 0 {
      if ImportMatchHere(s) {
        ImportLineLength(s);
        CommentImportsGrows(s[LineEnd(s)..]);
      } else {
        CommentImportsGrows(s[1..]);
        if !NoImportMatch(s) {
          var i :| 0 <= i < |s| && ImportMatchHere(s[i..]);
          assert i > 0;
          assert s[1..][i - 1..] == s[i..];
        }
      }
    }
  }

  /** A prefix holding no `i` cannot start a match, so pass 1 copies it. */
  lemma {:induction false} CommentImportsSkip(a: string, b: string)
    requires ImportKeyword[0] !in a
    ensures CommentImports(a + b) == a + CommentImports(b)
    decreases |a|
  {
    if |a| > 0 {
      assert (a + b)[0] == a[0];
      assert !ImportMatchHere(a + b);
      assert (a + b)[1..] == a[1..] + b;
      CommentImportsSkip(a[1..], b);
    } else {
      assert a + b == b;
    }
  }

  /** Pass 1 is the identity exactly on texts where the pattern matches nowhere. */
  lemma {:induction false} CommentImportsIdentity(s: string)
    ensures CommentImports(s) == s <==> NoImportMatch(s)
    decreases |s|
  {
    CommentImportsGrows(s);
    if |s| > 0 && NoImportMatch(s) {
      assert !ImportMatchHere(s[0..]);
      assert s[0..] == s;
      forall i | 0 <= i < |s| - 1 ensures !ImportMatchHere(s[1..][i..]) {
        assert s[1..][i..] == s[i + 1..];
      }
      CommentImportsIdentity(s[1..]);
    }
  }

  // ---------------------------------------------------------------------------
  // The whole rewriter
  // ---------------------------------------------------------------------------

  /** Pass 2: every `export default` becomes `const App =`. */
  function BindDefaultExport(s: string): string {
    ReplaceAll(s, DefaultExport, AppBinding)
  }

  /** Pass 3: every `export ` found by one scan is deleted. */
  function StripExports(s: string): string {
    ReplaceAll(s, ExportKeyword, "")
  }

  /** The text placed into the preview document's script. */
  function Rewrite(code: string): string {
    StripExports(BindDefaultExport(CommentImports(code)))
  }

  /** Pass 2 leaves no `export default` behind: `const App =` has no `e` that
      could start one and `export default` has no `c` that could start a
      replacement, so no occurrence can straddle a replacement. */
  lemma BindDefaultExportRemovesAll(s: string)
    ensures !Contains(BindDefaultExport(s), DefaultExport)
  {
    ReplaceAllEliminates(s, DefaultExport, AppBinding);
  }

  /** Pass 2 rewrites the first `export default` into the binding and goes on
      with the text after it, so the binding is always introduced. */
  lemma BindDefaultExportBinds(s: string)
    requires Contains(s, DefaultExport)
    ensures Contains(BindDefaultExport(s), AppBinding)
  {
    var k := IndexOf(s, DefaultExport).value;
    ReplaceAllLeftmost(s, DefaultExport, AppBinding, k);
    var tail := ReplaceAll(s[k + |DefaultExport|..], DefaultExport, AppBinding);
    assert (s[..k] + AppBinding + tail)[k..k + |AppBinding|] == AppBinding;
    assert OccursAt(BindDefaultExport(s), AppBinding, k);
  }

  /** Pass 3 only deletes: what remains is the input's other characters in order. */
  lemma StripExportsOnlyDeletes(s: string)
    ensures IsSubsequence(StripExports(s), s)
  {
    DeleteAllIsSubsequence(s, ExportKeyword);
  }

  /** Pass 3 is one scan, not a fixpoint: deleting an inner `export ` can
      splice a new one together, which stays in the output. */
  lemma StripExportsSplices()
    ensures StripExports("e" + ExportKeyword + "xport ") == ExportKeyword
  {
    assert ExportKeyword[1..] == "xport ";
    assert ExportKeyword[0] !in ExportKeyword[1..];
    ReplaceAllSplice(ExportKeyword, "");
    assert [ExportKeyword[0]] + "" + ExportKeyword[1..] == ExportKeyword;
  }

  /** An `export default` is also an `export `. */
  lemma DefaultExportIsExport(s: string)
    requires Contains(s, DefaultExport)
    ensures Contains(s, ExportKeyword)
  {
    var i :| 0 <= i <= |s| - |DefaultExport| && OccursAt(s, DefaultExport, i);
    assert s[i..i + |ExportKeyword|] == DefaultExport[..|ExportKeyword|];
    assert OccursAt(s, ExportKeyword, i);
  }

  /** Text with no matching import line and no `export ` passes through unchanged. */
  lemma RewriteIdentity(code: string)
    requires NoImportMatch(code)
    requires !Contains(code, ExportKeyword)
    ensures Rewrite(code) == code
  {
    CommentImportsIdentity(code);
    if Contains(code, DefaultExport) {
      DefaultExportIsExport(code);
    }
    ReplaceAllNoMatch(code, DefaultExport, AppBinding);
    ReplaceAllNoMatch(code, ExportKeyword, "");
  }

  /** If pass 1 leaves an `export default`, the rewritten script contains the
      text `const App =`: pass 3 cannot cut into it, as it shares no first
      character with `export `. Whether that text is live code is not
      stated: after a matching import on the same line it follows the `// `
      pass 1 inserts there, and whether that marker opens a comment depends
      on lexing the rewriter does not do. */
  lemma RewriteBindsApp(code: string)
    requires Contains(CommentImports(code), DefaultExport)
    ensures Contains(Rewrite(code), AppBinding)
  {
    var bound := BindDefaultExport(CommentImports(code));
    BindDefaultExportBinds(CommentImports(code));
    var i :| 0 <= i <= |bound| - |AppBinding| && OccursAt(bound, AppBinding, i);
    ReplaceAllPreserves(bound, ExportKeyword, "", AppBinding, i);
  }

  /** `import ` holds an `m`: a text without one has no line to comment out. */
  lemma NoImportWithoutM(s: string)
    requires 'm' !in s
    ensures NoImportMatch(s)
  {
    forall i | 0 <= i < |s| ensures !ImportMatchHere(s[i..]) {
      MissingCharNoMatch(s[i..], ImportKeyword, 'm');
      assert !OccursAt(s[i..], ImportKeyword, 0);
    }
  }
}
