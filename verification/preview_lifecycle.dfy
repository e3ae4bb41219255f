/** The preview frame's effect (components/PreviewFrame.tsx, lines 11-12 and
    73-81): whenever the source text or the refresh counter changes, the frame
    builds the document, wraps it in a blob, points the iframe at a fresh object
    URL and leaves behind a cleanup that revokes exactly that URL. React runs the
    previous cleanup before the next effect body, and runs the last cleanup on
    unmount. Object URLs are drawn from a counter. */
module PreviewLifecycle {
  import opened Base
  import SourceRewriter
  import SandboxDocument

  /** An object URL, identified by the order in which it was created. */
  type Url = nat

  /** The effect's dependency list `[code, refreshTrigger]`. */
  datatype Deps = Deps(code: string, refreshTrigger: int)

  /** The frame as the browser sees it.
      - `deps`: the dependencies the effect last ran with (None before the
        first commit and after unmount)
      - `cleanup`: the URL the pending cleanup will revoke, if any
      - `src`: the iframe's current source
      - `blobs`: the source text each created URL's document was built
        from (the document itself is `BlobDocument`)
      - `created`, `revoked`: every URL created and revoked, in order
      - `nextUrl`: the next fresh URL */
  datatype Frame = Frame(
    deps: Option<Deps>,
    cleanup: Option<Url>,
    src: Option<Url>,
    blobs: map<Url, string>,
    created: seq<Url>,
    revoked: seq<Url>,
    nextUrl: Url)

  /** A frame before its first commit. */
  const Initial := Frame(None, None, None, map[], [], [], 0)

  /** A URL that has been created and not yet revoked. */
  predicate IsLive(f: Frame, u: Url) {
    u in f.created && u !in f.revoked
  }

  predicate Increasing(s: seq<Url>) {
    forall i, j | 0 <= i < j < |s| :: s[i] < s[j]
  }

  /** What every reachable frame satisfies: URLs are created in increasing
      order and below the counter; every created URL except the one the pending
      cleanup holds has been revoked, in creation order; a pending cleanup
      holds the URL the iframe shows; blobs exist exactly for created URLs. */
  predicate Inv(f: Frame) {
    && Increasing(f.created)
    && (forall i | 0 <= i < |f.created| :: f.created[i] < f.nextUrl)
    && (match f.cleanup
        case None => f.revoked == f.created
        case Some(u) => f.created == f.revoked + [u] && f.src == Some(u))
    && (forall u | u in f.blobs :: u in f.created)
    && (forall i | 0 <= i < |f.created| :: f.created[i] in f.blobs)
  }

  /** The HTML document held by the blob behind a created URL: the template
      with the rewritten source in its script slot. */
  function BlobDocument(f: Frame, u: Url): (doc: string)
    requires u in f.blobs
    ensures SandboxDocument.ExtractScript(doc) == Some(SourceRewriter.Rewrite(f.blobs[u]))
  {
    SandboxDocument.PreviewDocument(f.blobs[u])
  }

  /** The previous effect's cleanup: `URL.revokeObjectURL(url)`. */
  function RunCleanup(f: Frame): (g: Frame)
    ensures g.cleanup.None? && g.created == f.created && g.src == f.src && g.nextUrl == f.nextUrl
    ensures g.blobs == f.blobs && g.deps == f.deps
    ensures f.cleanup.Some? ==> g.revoked == f.revoked + [f.cleanup.value]
    ensures f.cleanup.None? ==> g.revoked == f.revoked
  {
    match f.cleanup
    case None => f
    case Some(u) => f.(cleanup := None, revoked := f.revoked + [u])
  }

  /** The effect body. Without an attached iframe it returns before building
      anything and leaves no cleanup; otherwise it creates one fresh URL for the
      built document, points the iframe at it and registers its revocation. */
  function RunBody(f: Frame, code: string, attached: bool): (g: Frame)
    requires f.cleanup.None?
    ensures !attached ==> g == f
    ensures attached ==>
      && g.created == f.created + [f.nextUrl]
      && g.src == Some(f.nextUrl) && g.cleanup == Some(f.nextUrl)
      && f.nextUrl in g.blobs && g.blobs[f.nextUrl] == code
      && g.revoked == f.revoked && g.nextUrl == f.nextUrl + 1
      && g.deps == f.deps
      && g.blobs.Keys == f.blobs.Keys + {f.nextUrl}
      && (forall u | u in f.blobs && u != f.nextUrl :: g.blobs[u] == f.blobs[u])
  {
    if !attached then f
    else
      var u := f.nextUrl;
      f.(cleanup := Some(u), src := Some(u),
         blobs := f.blobs[u := code],
         created := f.created + [u], nextUrl := u + 1)
  }

  /** A render committed with the given props; `attached` says whether the
      iframe ref is set when the effect would run. The effect runs only when a
      dependency differs from the last run (always on the first commit). */
  function Commit(f: Frame, code: string, refreshTrigger: int, attached: bool): (g: Frame)
    ensures f.deps == Some(Deps(code, refreshTrigger)) ==> g == f
    ensures f.deps != Some(Deps(code, refreshTrigger)) ==> g.deps == Some(Deps(code, refreshTrigger))
  {
    var d := Deps(code, refreshTrigger);
    if f.deps == Some(d) then f
    else RunBody(RunCleanup(f), code, attached).(deps := Some(d))
  }

  /** The component leaves the page: the pending cleanup runs. */
  function Unmount(f: Frame): (g: Frame)
    ensures g.cleanup.None? && g.deps.None? && g.created == f.created
  {
    RunCleanup(f).(deps := None)
  }

  /** An event the frame reacts to. */
  datatype Event = Render(code: string, refreshTrigger: int, attached: bool) | Leave

  function Step(f: Frame, e: Event): Frame {
    match e
    case Render(code, t, attached) => Commit(f, code, t, attached)
    case Leave => Unmount(f)
  }

  function Run(f: Frame, events: seq<Event>): Frame
    decreases |events|
  {
    if |events| == 0 then f else Run(Step(f, events[0]), events[1..])
  }

  // ---------------------------------------------------------------------------
  // The invariant and what it gives

  lemma InitialInv()
    ensures Inv(Initial)
  {
  }

  lemma CommitInv(f: Frame, code: string, refreshTrigger: int, attached: bool)
    requires Inv(f)
    ensures Inv(Commit(f, code, refreshTrigger, attached))
  {
    if f.deps != Some(Deps(code, refreshTrigger)) {
      CleanupInv(f);
      BodyInv(RunCleanup(f), code, attached);
    }
  }

  lemma CleanupInv(f: Frame)
    requires Inv(f)
    ensures Inv(RunCleanup(f)) && RunCleanup(f).revoked == RunCleanup(f).created
  {
  }

  lemma BodyInv(c: Frame, code: string, attached: bool)
    requires Inv(c) && c.cleanup.None?
    ensures Inv(RunBody(c, code, attached))
  {
    if attached {
      var g := RunBody(c, code, attached);
      assert g.created == g.revoked + [c.nextUrl];
      assert Increasing(g.created) by {
        forall i, j | 0 <= i < j < |g.created| ensures g.created[i] < g.created[j] {
          if j == |c.created| {
            assert g.created[i] == c.created[i];
          }
        }
      }
    }
  }

  lemma UnmountInv(f: Frame)
    requires Inv(f)
    ensures Inv(Unmount(f))
  {
  }

  /** Every frame reachable from the initial one satisfies the invariant. */
  lemma {:induction false} RunInv(f: Frame, events: seq<Event>)
    requires Inv(f)
    ensures Inv(Run(f, events))
    decreases |events|
  {
    if |events| > 0 {
      match events[0] {
        case Render(code, t, attached) => CommitInv(f, code, t, attached);
        case Leave => UnmountInv(f);
      }
      RunInv(Step(f, events[0]), events[1..]);
    }
  }

  /** At most one URL is live, and a live URL is the one the iframe shows and
      the pending cleanup will revoke. */
  lemma AtMostOneLive(f: Frame, u: Url, v: Url)
    requires Inv(f) && IsLive(f, u) && IsLive(f, v)
    ensures u == v && f.src == Some(u) && f.cleanup == Some(u)
  {
  }

  /** No URL is revoked twice, and only created URLs are revoked. */
  lemma RevokedOnce(f: Frame)
    requires Inv(f)
    ensures forall i, j | 0 <= i < j < |f.revoked| :: f.revoked[i] != f.revoked[j]
    ensures forall i | 0 <= i < |f.revoked| :: f.revoked[i] in f.created
  {
    assert f.revoked == f.created[..|f.revoked|];
  }

  /** After unmount nothing is live: every URL ever created has been revoked,
      exactly once and in creation order. */
  lemma UnmountRevokesAll(f: Frame, u: Url)
    requires Inv(f)
    ensures Unmount(f).revoked == Unmount(f).created
    ensures !IsLive(Unmount(f), u)
  {
  }

  // ---------------------------------------------------------------------------
  // What one commit does

  /** A commit whose dependencies equal the last run's creates nothing,
      revokes nothing and leaves the iframe alone. */
  lemma SameDepsNoRebuild(f: Frame, code: string, refreshTrigger: int, attached: bool)
    requires f.deps == Some(Deps(code, refreshTrigger))
    ensures var g := Commit(f, code, refreshTrigger, attached);
      g.created == f.created && g.revoked == f.revoked && g.src == f.src
  {
  }

  /** A commit with changed dependencies and an attached iframe creates exactly
      one URL, fresh and holding the document built from the new source, points
      the iframe at it, and revokes the URL it replaces. */
  lemma RebuildCreatesOneFreshUrl(f: Frame, code: string, refreshTrigger: int)
    requires Inv(f)
    requires f.deps != Some(Deps(code, refreshTrigger))
    ensures var g := Commit(f, code, refreshTrigger, true);
      && |g.created| == |f.created| + 1
      && var u := g.created[|f.created|];
      && u !in f.created
      && g.src == Some(u)
      && g.blobs[u] == code
      && (forall v :: IsLive(g, v) <==> v == u)
      && (f.cleanup.Some? ==> !IsLive(g, f.cleanup.value))
  {
    var g := Commit(f, code, refreshTrigger, true);
    var u := f.nextUrl;
    assert g.created[|f.created|] == u;
    assert u !in f.created;
    assert g.created == g.revoked + [u];
    forall v ensures IsLive(g, v) <==> v == u {
      if v == u {
        assert u !in g.revoked;
      }
    }
    if f.cleanup.Some? {
      assert f.cleanup.value in g.revoked;
    }
  }

  /** A changed dependency rebuilds even when the source text is the same: a
      bump of the refresh counter alone yields a new URL. */
  lemma RefreshBumpRebuilds(f: Frame, code: string, refreshTrigger: int)
    requires Inv(f) && f.deps == Some(Deps(code, refreshTrigger))
    ensures var g := Commit(f, code, refreshTrigger + 1, true);
      && |g.created| == |f.created| + 1
      && g.src.Some? && g.src.value !in f.created
      && g.blobs[g.src.value] == code
  {
    assert Deps(code, refreshTrigger) != Deps(code, refreshTrigger + 1);
    RebuildCreatesOneFreshUrl(f, code, refreshTrigger + 1);
  }

  /** Without an attached iframe no URL is created, whatever the props. */
  lemma DetachedCreatesNothing(f: Frame, code: string, refreshTrigger: int)
    requires Inv(f)
    ensures var g := Commit(f, code, refreshTrigger, false);
      && g.created == f.created && g.src == f.src
      && (f.deps != Some(Deps(code, refreshTrigger)) ==> forall v :: !IsLive(g, v))
  {
  }

  /** Over any sequence of events from the initial frame, every URL created is
      revoked at most once, at most one is live, and once the component leaves
      the page nothing is. */
  lemma {:induction false} TraceSafety(events: seq<Event>, u: Url, v: Url)
    ensures var f := Run(Initial, events);
      && (IsLive(f, u) && IsLive(f, v) ==> u == v)
      && (forall i, j | 0 <= i < j < |f.revoked| :: f.revoked[i] != f.revoked[j])
      && (|events| > 0 && events[|events| - 1] == Leave ==> !IsLive(f, u))
  {
    InitialInv();
    RunInv(Initial, events);
    var f := Run(Initial, events);
    RevokedOnce(f);
    if IsLive(f, u) && IsLive(f, v) {
      AtMostOneLive(f, u, v);
    }
    if |events| > 0 && events[|events| - 1] == Leave {
      RunSplit(Initial, events[..|events| - 1], Leave);
      assert events[..|events| - 1] + [Leave] == events;
      var p := Run(Initial, events[..|events| - 1]);
      RunInv(Initial, events[..|events| - 1]);
      UnmountRevokesAll(p, u);
    }
  }

  /** Running a trace with one more event is one more step. */
  lemma {:induction false} RunSplit(f: Frame, events: seq<Event>, e: Event)
    ensures Run(f, events + [e]) == Step(Run(f, events), e)
    decreases |events|
  {
    if |events| == 0 {
      assert Run(f, [e]) == Run(Step(f, e), []);
    } else {
      assert (events + [e])[1..] == events[1..] + [e];
      RunSplit(Step(f, events[0]), events[1..], e);
    }
  }
}
