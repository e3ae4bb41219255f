/** The document the preview frame loads (components/PreviewFrame.tsx, lines
    16-71): a fixed prefix, the rewritten source, and a fixed suffix holding the
    mount routine. */
module SandboxDocument {
  import opened Base
  import opened Text
  import SourceRewriter

  /** From the template's opening line break to `<body>`: metadata, the styling
      framework, React and ReactDOM, Babel standalone, the icon set and the charting
      library, all loaded from fixed addresses. */
  const DocumentHead :=
    "\n" +
    "      <!DOCTYPE html>\n" +
    "      <html lang=\"en\">\n" +
    "      <head>\n" +
    "        <meta charset=\"UTF-8\" />\n" +
    "        <meta name=\"viewport\" content=\"width=device-width, initial-scale=1.0\" />\n" +
    "        <script src=\"https://cdn.tailwindcss.com\"></script>\n" +
    "        <!-- React & ReactDOM -->\n" +
    "        <script crossorigin src=\"https://unpkg.com/react@18/umd/react.development.js\"></script>\n" +
    "        <script crossorigin src=\"https://unpkg.com/react-dom@18/umd/react-dom.development.js\"></script>\n" +
    "        <!-- Babel for JSX compilation -->\n" +
    "        <script src=\"https://unpkg.com/@babel/standalone/babel.min.js\"></script>\n" +
    "        <!-- Lucide Icons -->\n" +
    "        <script src=\"https://unpkg.com/lucide@latest\"></script>\n" +
    "        <script src=\"https://unpkg.com/lucide-react/dist/lucide-react.min.js\"></script>\n" +
    "        <!-- Recharts (Optional support) -->\n" +
    "        <script src=\"https://unpkg.com/recharts/umd/Recharts.js\"></script>\n" +
    "        \n" +
    "        <style>\n" +
    "          body { background-color: #ffffff; color: #1f2937; margin: 0; padding: 0; }\n" +
    "          #root { min-height: 100vh; }\n" +
    "        </style>\n" +
    "      </head>\n" +
    "      <body>\n"

  /** The element the mount routine renders into. */
  const RootLine :=
    "        <div id=\"root\"></div>\n"

  /** Opens the script block Babel compiles in the frame. */
  const BabelOpenLine :=
    "        <script type=\"text/babel\" data-presets=\"env,react\">\n"

  /** Hook bindings and the icon shim that precede the rewritten source. */
  const ScriptPreamble :=
    "          const { useState, useEffect, useRef, useMemo, useCallback } = React;\n" +
    "          \n" +
    "          // Shim for imports since we are in a simple script tag environment\n" +
    "          // We define a simple 'require' or just map window globals to expected import names\n" +
    "          \n" +
    "          // Mocking lucide-react icons availability\n" +
    "          const LucideIcons = window.lucide ? window.lucide.icons : {};\n" +
    "          \n" +
    "          // We wrap the user code in a function to avoid global scope pollution issues, \n" +
    "          // but we need to handle the 'export default' or 'export' syntax which Babel standalone doesn't love in scripts.\n" +
    "          // Strategy: We will strip 'export default' and just mount the last defined function or a specific name.\n" +
    "          \n" +
    "          "

  /** After the rewritten source: the mount routine up to the error branch's assignment. */
  const MountHead :=
    "\n" +
    "\n" +
    "          // Mount logic\n" +
    "          const rootElement = document.getElementById('root');\n" +
    "          const root = ReactDOM.createRoot(rootElement);\n" +
    "          \n" +
    "          // Try to find the component named App, or fallback to the last defined function if possible (simplified here)\n" +
    "          if (" + AppCheck + ") {\n" +
    "             root.render(<App />);\n" +
    "          } else {\n" +
    "             rootElement.innerHTML = '"

  /** The mount routine's test for the canonical binding. */
  const AppCheck := "typeof App !== 'undefined'"

  /** What the error branch writes into the root when `App` is not bound. */
  const MissingAppHtml := MissingAppLead + QuotedApp + MissingAppTrail

  const MissingAppLead := "<div class=\"p-4 text-red-500\">Error: Could not find component "
  const QuotedApp := "\"App\""
  const MissingAppTrail := ". Please ensure the code defines \"const App\" or \"export default function App\".</div>"

  /** Closes the error branch, the script, the body and the document. */
  const MountTail :=
    "';\n" +
    "          }\n" +
    "        </script>\n" +
    "      </body>\n" +
    "      </html>\n" +
    "    "

  /** Everything before the rewritten source. */
  const Prefix := DocumentHead + RootLine + BabelOpenLine + ScriptPreamble

  /** Everything after the rewritten source. */
  const Suffix := MountHead + MissingAppHtml + MountTail

  /** The template literal with the rewritten source in its one slot. */
  function BuildDocument(script: string): string {
    Prefix + script + Suffix
  }

  /** Reads back the script slot of a document built from the template. */
  function ExtractScript(doc: string): (r: Option<string>)
    ensures r.Some? ==> |r.value| == |doc| - |Prefix| - |Suffix|
  {
    if |Prefix| + |Suffix| <= |doc| && doc[..|Prefix|] == Prefix && doc[|doc| - |Suffix|..] == Suffix
    then Some(doc[|Prefix|..|doc| - |Suffix|])
    else None
  }

  /** The script slot holds the given text verbatim, and nothing else does the
      template add around it. */
  lemma ExtractBuild(script: string)
    ensures ExtractScript(BuildDocument(script)) == Some(script)
  {
    Disassemble(Prefix, script, Suffix);
  }

  lemma Disassemble(pre: string, mid: string, post: string)
    ensures var doc := pre + mid + post;
      doc[..|pre|] == pre && doc[|doc| - |post|..] == post && doc[|pre|..|doc| - |post|] == mid
  {
    var doc := pre + mid + post;
    assert doc[..|pre|] == pre;
    assert doc[|doc| - |post|..] == post;
    assert doc[|pre|..|doc| - |post|] == mid;
  }

  /** Every document the extraction accepts is the template around what it extracts. */
  lemma BuildExtract(doc: string)
    requires ExtractScript(doc).Some?
    ensures BuildDocument(ExtractScript(doc).value) == doc
  {
    Reassemble(doc, Prefix, Suffix);
  }

  /** A text that starts with `pre` and ends with `post`, without overlap, is
      `pre`, its middle and `post`. */
  lemma Reassemble(doc: string, pre: string, post: string)
    requires |pre| + |post| <= |doc|
    requires doc[..|pre|] == pre && doc[|doc| - |post|..] == post
    ensures pre + doc[|pre|..|doc| - |post|] + post == doc
  {
  }

  /** Where the root's content comes from once the script has run. */
  datatype RootContent = RenderedApp | ErrorBanner(html: string)

  /** The mount routine's branch on `typeof App !== 'undefined'`, which the
      model takes as the input `appDefined`: the component is rendered, or
      the fixed error banner replaces the root's content. */
  function Mount(appDefined: bool): (c: RootContent)
    ensures c.RenderedApp? <==> appDefined
    ensures c.ErrorBanner? ==> c.html == MissingAppHtml && Contains(c.html, QuotedApp)
  {
    if appDefined then RenderedApp
    else
      MissingAppHtmlNamesApp();
      ErrorBanner(MissingAppHtml)
  }

  lemma MissingAppHtmlNamesApp()
    ensures Contains(MissingAppHtml, QuotedApp)
  {
    OccursAtJoin(MissingAppLead, QuotedApp, MissingAppTrail);
  }

  /** The document places, in order: the root element, the opening of the
      Babel script, the rewritten text in its slot, and the mount routine
      with its error banner. */
  lemma DocumentLayout(script: string)
    ensures var doc := BuildDocument(script);
      && OccursAt(doc, RootLine, |DocumentHead|)
      && OccursAt(doc, BabelOpenLine, |DocumentHead| + |RootLine|)
      && OccursAt(doc, script, |Prefix|)
      && OccursAt(doc, MissingAppHtml, |Prefix| + |script| + |MountHead|)
  {
    Layout(DocumentHead, RootLine, BabelOpenLine, ScriptPreamble, script, MountHead, MissingAppHtml, MountTail);
  }

  /** `DocumentLayout` over arbitrary pieces. */
  lemma Layout(head: string, root: string, open: string, preamble: string,
               script: string, mount: string, banner: string, tail: string)
    ensures var doc := (head + root + open + preamble) + script + (mount + banner + tail);
      && OccursAt(doc, root, |head|)
      && OccursAt(doc, open, |head| + |root|)
      && OccursAt(doc, script, |head + root + open + preamble|)
      && OccursAt(doc, banner, |head + root + open + preamble| + |script| + |mount|)
  {
    var pre := head + root + open + preamble;
    var post := mount + banner + tail;
    OccursAfter(head, root);
    OccursExtend(head + root, open, root, |head|);
    OccursExtend(head + root + open, preamble, root, |head|);
    OccursExtend(pre, script, root, |head|);
    OccursExtend(pre + script, post, root, |head|);
    OccursAfter(head + root, open);
    OccursExtend(head + root + open, preamble, open, |head + root|);
    OccursExtend(pre, script, open, |head + root|);
    OccursExtend(pre + script, post, open, |head + root|);
    OccursAtJoin(pre, script, post);
    OccursAfter(mount, banner);
    OccursExtend(mount + banner, tail, banner, |mount|);
    OccursExtend(post, pre + script, banner, |mount|);
  }

  /** The document the frame builds for a source text: the rewritten source in
      the template's slot, recoverable from it verbatim. */
  function PreviewDocument(code: string): (doc: string)
    ensures ExtractScript(doc) == Some(SourceRewriter.Rewrite(code))
    ensures |doc| == |Prefix| + |SourceRewriter.Rewrite(code)| + |Suffix|
  {
    ExtractBuild(SourceRewriter.Rewrite(code));
    BuildDocument(SourceRewriter.Rewrite(code))
  }
}
