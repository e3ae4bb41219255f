/** Worked inputs for the rewriter: a lone default export, an import line
    followed by a default export, a component with no default export, and a
    default export after and before an import on the same line.

    The small lemmas that state which letters a literal lacks (`…HasNo…`,
    `…Facts`, `…OneLine`) only split the character-level work into pieces the
    solver handles quickly; the scenarios are the statements of interest. */
module RewriterExamples {
  import opened Text
  import opened SourceRewriter

  // Scenario A: `export default function App(){ return <div>Hi</div>; }`
  const HelloRest := " function App(){ return <div>Hi</div>; }"

  lemma HelloRestHasNoX()
    ensures 'x' !in HelloRest
  {
  }

  lemma HelloRestHasNoM()
    ensures 'm' !in HelloRest
  {
  }

  lemma KeywordLetters()
    ensures 'm' !in DefaultExport && 'e' !in AppBinding
  {
  }

  /** `export default function App(){ return <div>Hi</div>; }` becomes
      `const App = function App(){ return <div>Hi</div>; }`. */
  lemma ScenarioA()
    ensures Rewrite(DefaultExport + HelloRest) == AppBinding + HelloRest
  {
    HelloRestHasNoX();
    HelloRestHasNoM();
    KeywordLetters();
    var code := DefaultExport + HelloRest;
    NoImportWithoutM(code);
    CommentImportsIdentity(code);
    MissingCharNoMatch(HelloRest, DefaultExport, 'x');
    MissingCharNoMatch(HelloRest, ExportKeyword, 'x');
    ReplaceAllAtStart(HelloRest, DefaultExport, AppBinding);
    ReplaceAllNoMatch(HelloRest, DefaultExport, AppBinding);
    ReplaceAllSkip(AppBinding, HelloRest, ExportKeyword, "");
    ReplaceAllNoMatch(HelloRest, ExportKeyword, "");
  }

  // Scenario B: `import X from 'y';\nexport default function App(){return null;}`
  const ImportLine := ImportKeyword + "X" + FromKeyword + "'y';"
  const NullRest := " function App(){return null;}"

  lemma NullRestFacts()
    ensures 'x' !in NullRest && 'm' !in NullRest && 'm' !in DefaultExport
  {
  }

  lemma ImportLineNoBreak()
    ensures NoLineBreak(ImportLine)
  {
    assert '\n' !in ImportLine && '\r' !in ImportLine;
    assert '\U{2028}' !in ImportLine && '\U{2029}' !in ImportLine;
    forall i | 0 <= i < |ImportLine| ensures !IsLineTerminator(ImportLine[i]) {
      assert ImportLine[i] in ImportLine;
    }
  }

  lemma ImportLineQualifies()
    ensures CommentLine(ImportLine) == CommentMarker + ImportLine
  {
    var tail := "X" + FromKeyword + "'y';";
    assert ImportLine == ImportKeyword + tail;
    assert ImportLine[..|ImportKeyword|] == ImportKeyword;
    assert OccursAt(ImportLine, ImportKeyword, 0);
    IndexOfIsLeftmost(ImportLine, ImportKeyword, 0);
    assert ImportLine[|ImportKeyword|..] == tail;
    OccursAtJoin("X", FromKeyword, "'y';");
  }

  lemma ScenarioBPass1()
    ensures CommentImports(ImportLine + "\n" + DefaultExport + NullRest)
         == CommentMarker + ImportLine + "\n" + DefaultExport + NullRest
  {
    var second := DefaultExport + NullRest;
    NullRestFacts();
    CommentImportsAcrossBreak(ImportLine, '\n', second);
    assert ImportLine + ['\n'] + second == ImportLine + "\n" + DefaultExport + NullRest;
    ImportLineNoBreak();
    CommentImportsOneLine(ImportLine);
    ImportLineQualifies();
    NoImportWithoutM(second);
    CommentImportsIdentity(second);
  }

  lemma ScenarioBPasses23()
    ensures StripExports(BindDefaultExport(CommentMarker + ImportLine + "\n" + DefaultExport + NullRest))
         == CommentMarker + ImportLine + "\n" + AppBinding + NullRest
  {
    var pre := CommentMarker + ImportLine + "\n";
    assert 'e' !in pre && 'e' !in AppBinding;
    NullRestFacts();
    assert pre + DefaultExport + NullRest == pre + (DefaultExport + NullRest);
    ReplaceAllSkip(pre, DefaultExport + NullRest, DefaultExport, AppBinding);
    ReplaceAllAtStart(NullRest, DefaultExport, AppBinding);
    MissingCharNoMatch(NullRest, DefaultExport, 'x');
    ReplaceAllNoMatch(NullRest, DefaultExport, AppBinding);
    assert pre + (AppBinding + NullRest) == (pre + AppBinding) + NullRest;
    ReplaceAllSkip(pre + AppBinding, NullRest, ExportKeyword, "");
    MissingCharNoMatch(NullRest, ExportKeyword, 'x');
    ReplaceAllNoMatch(NullRest, ExportKeyword, "");
  }

  /** `import X from 'y';\nexport default function App(){return null;}` becomes
      `// import X from 'y';\nconst App = function App(){return null;}`. */
  lemma ScenarioB()
    ensures Rewrite(ImportLine + "\n" + DefaultExport + NullRest)
         == CommentMarker + ImportLine + "\n" + AppBinding + NullRest
  {
    ScenarioBPass1();
    ScenarioBPasses23();
  }

  // Scenario C: `function Widget(){return <span/>;}`
  const Widget := "function Widget(){return <span/>;}"

  lemma WidgetHasNoM()
    ensures 'm' !in Widget
  {
  }

  lemma WidgetHasNoX()
    ensures 'x' !in Widget
  {
  }

  lemma WidgetHasNoCapitalA()
    ensures 'A' !in Widget
  {
  }

  /** A component with no default export passes through unchanged and binds no
      `App`, so the mount routine takes its error branch. */
  lemma ScenarioC()
    ensures Rewrite(Widget) == Widget
    ensures !Contains(Rewrite(Widget), AppBinding)
  {
    WidgetHasNoM();
    WidgetHasNoX();
    WidgetHasNoCapitalA();
    assert 'x' in ExportKeyword && 'A' in AppBinding;
    NoImportWithoutM(Widget);
    MissingCharNoMatch(Widget, ExportKeyword, 'x');
    RewriteIdentity(Widget);
    MissingCharNoMatch(Widget, AppBinding, 'A');
  }

  // Scenario D: `import a from 'b'; export default App;`
  const ImportHead := ImportKeyword + "a" + FromKeyword + "'b'; "
  const AppRest := " App;"

  lemma AppRestFacts()
    ensures 'x' !in AppRest && 'e' !in ImportHead && 'e' !in CommentMarker
  {
  }

  lemma SharedLineNoBreak()
    ensures NoLineBreak(ImportHead + DefaultExport + AppRest)
  {
    ImportHeadOneLine();
    DefaultExportOneLine();
    AppRestOneLine();
    NoLineBreakAppend(ImportHead, DefaultExport);
    NoLineBreakAppend(ImportHead + DefaultExport, AppRest);
  }

  lemma ImportHeadOneLine()
    ensures NoLineBreak(ImportHead)
  {
    NoBreakIn(ImportHead);
  }

  lemma DefaultExportOneLine()
    ensures NoLineBreak(DefaultExport)
  {
    NoBreakIn(DefaultExport);
  }

  lemma AppRestOneLine()
    ensures NoLineBreak(AppRest)
  {
    NoBreakIn(AppRest);
  }

  /** A text without any of the four line terminators is one line. */
  lemma NoBreakIn(s: string)
    requires '\n' !in s && '\r' !in s && '\U{2028}' !in s && '\U{2029}' !in s
    ensures NoLineBreak(s)
  {
    forall i | 0 <= i < |s| ensures !IsLineTerminator(s[i]) {
      assert s[i] in s;
    }
  }

  lemma SharedLineQualifies()
    ensures CommentLine(ImportHead + DefaultExport + AppRest)
         == CommentMarker + (ImportHead + DefaultExport + AppRest)
  {
    var line := ImportHead + DefaultExport + AppRest;
    var tail := "a" + FromKeyword + ("'b'; " + DefaultExport + AppRest);
    assert line == ImportKeyword + tail;
    assert line[..|ImportKeyword|] == ImportKeyword;
    assert OccursAt(line, ImportKeyword, 0);
    IndexOfIsLeftmost(line, ImportKeyword, 0);
    assert line[|ImportKeyword|..] == tail;
    OccursAtJoin("a", FromKeyword, "'b'; " + DefaultExport + AppRest);
  }

  lemma ScenarioDPasses23()
    ensures StripExports(BindDefaultExport(CommentMarker + ImportHead + DefaultExport + AppRest))
         == CommentMarker + ImportHead + AppBinding + AppRest
  {
    var pre := CommentMarker + ImportHead;
    AppRestFacts();
    assert 'e' !in pre;
    assert 'e' !in AppBinding;
    assert pre + DefaultExport + AppRest == pre + (DefaultExport + AppRest);
    ReplaceAllSkip(pre, DefaultExport + AppRest, DefaultExport, AppBinding);
    ReplaceAllAtStart(AppRest, DefaultExport, AppBinding);
    MissingCharNoMatch(AppRest, DefaultExport, 'x');
    ReplaceAllNoMatch(AppRest, DefaultExport, AppBinding);
    assert pre + (AppBinding + AppRest) == (pre + AppBinding) + AppRest;
    ReplaceAllSkip(pre + AppBinding, AppRest, ExportKeyword, "");
    MissingCharNoMatch(AppRest, ExportKeyword, 'x');
    ReplaceAllNoMatch(AppRest, ExportKeyword, "");
  }

  /** `import a from 'b'; export default App;` becomes
      `// import a from 'b'; const App = App;`: pass 1 puts `// ` before the
      import, so the binding pass 2 writes follows that marker on the same
      line; in this one-line script nothing else binds `App`. */
  lemma ScenarioD()
    ensures Rewrite(ImportHead + DefaultExport + AppRest)
         == CommentMarker + ImportHead + AppBinding + AppRest
  {
    var line := ImportHead + DefaultExport + AppRest;
    SharedLineNoBreak();
    CommentImportsOneLine(line);
    SharedLineQualifies();
    assert CommentMarker + line == CommentMarker + ImportHead + DefaultExport + AppRest;
    ScenarioDPasses23();
  }

  // Scenario E: `export default App; import X from 'y';`
  const BindingHead := DefaultExport + AppRest + " "

  lemma BindingHeadHasNoI()
    ensures ImportKeyword[0] !in BindingHead
  {
  }

  lemma ImportTailHasNoX()
    ensures 'x' !in CommentMarker && 'x' !in ImportLine
  {
  }

  lemma ScenarioEPass1()
    ensures CommentImports(BindingHead + ImportLine) == BindingHead + (CommentMarker + ImportLine)
  {
    BindingHeadHasNoI();
    CommentImportsSkip(BindingHead, ImportLine);
    ImportLineNoBreak();
    CommentImportsOneLine(ImportLine);
    ImportLineQualifies();
  }

  lemma ScenarioEPasses23()
    ensures StripExports(BindDefaultExport(BindingHead + (CommentMarker + ImportLine)))
         == AppBinding + (AppRest + " " + CommentMarker + ImportLine)
  {
    var rest := AppRest + " " + CommentMarker + ImportLine;
    AppRestFacts();
    ImportTailHasNoX();
    KeywordLetters();
    assert 'x' !in rest;
    assert BindingHead + (CommentMarker + ImportLine) == DefaultExport + rest;
    ReplaceAllAtStart(rest, DefaultExport, AppBinding);
    MissingCharNoMatch(rest, DefaultExport, 'x');
    ReplaceAllNoMatch(rest, DefaultExport, AppBinding);
    ReplaceAllSkip(AppBinding, rest, ExportKeyword, "");
    MissingCharNoMatch(rest, ExportKeyword, 'x');
    ReplaceAllNoMatch(rest, ExportKeyword, "");
  }

  /** `export default App; import X from 'y';` becomes
      `const App = App; // import X from 'y';`: the `// ` goes before the
      `import `, so the binding earlier on the same line precedes it. */
  lemma ScenarioE()
    ensures Rewrite(BindingHead + ImportLine)
         == AppBinding + AppRest + " " + CommentMarker + ImportLine
  {
    ScenarioEPass1();
    ScenarioEPasses23();
    assert AppBinding + (AppRest + " " + CommentMarker + ImportLine)
        == AppBinding + AppRest + " " + CommentMarker + ImportLine;
  }
}
