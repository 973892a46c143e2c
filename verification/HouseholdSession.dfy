/** The confirm step when requests of one session overlap, and when one dies: each works on the session as
    it loaded it; its act is committed when the view returns; and only then, if it changed anything, is the
    whole of its session saved, with no lock from load to save. */
module HouseholdSession {
  import opened Wrappers
  import opened HouseholdConfirm
  import Households

  type Thread = nat

  /** A submit to the household page, or any other view that writes a session key of its own. */
  datatype Request = Submit(post: Post) | Elsewhere

  /** What the view has done: nothing yet, the act, a confirm page with its new nonce, or something that
      touches neither key. */
  datatype Phase = Pending | Acted | Asked(nonce: Nonce) | Done

  /** A request under way, with the two keys as it loaded them. */
  datatype Copy = Copy(request: Request, shown: map<Target, string>, intent: map<Target, Nonce>, phase: Phase)
  {
    predicate Confirms() {
      request.Submit? && request.post.target in shown
      && shown[request.post.target] == FingerprintText(request.post.proposal)
      && request.post.submitted.Some? && request.post.target in intent
      && intent[request.post.target] == request.post.submitted.value
    }

    /** A refusal changes no key, so nothing is saved. */
    predicate Saves() { phase.Acted? || phase.Asked? || request.Elsewhere? }
  }

  /** The stored session with its history, and the requests under way. `stale` are those that loaded before
      some other request's save; `unsaved` the nonces acted on by a request that has not saved, and may
      never. */
  datatype World = World(session: Session, running: map<Thread, Copy>, stale: set<Thread>, unsaved: set<Nonce>)

  datatype Event =
    | Load(thread: Thread, request: Request)
    | Work(thread: Thread)  // the view runs, and its transaction commits
    | Save(thread: Thread)  // the session middleware, on the way out
    | Die(thread: Thread)   // a worker killed, or a session save that fails

  predicate CanHappen(w: World, e: Event) {
    match e
    case Load(t, _) => t !in w.running
    case Work(t) => t in w.running && w.running[t].phase.Pending?
    case Save(t) => t in w.running && !w.running[t].phase.Pending?
    case Die(t) => t in w.running
  }

  /** The history, with the keys as the request loaded them. */
  function Loaded(w: World, c: Copy): Session { w.session.(shown := c.shown, intent := c.intent) }

  /** The page a confirming copy is about. */
  ghost function PageLoaded(w: World, c: Copy): nat
    requires c.request.Submit?
  {
    if HasPage(Loaded(w, c), c.request.post.target) then PageOf(Loaded(w, c), c.request.post.target) else 0
  }

  ghost function Worked(w: World, t: Thread): World
    requires t in w.running
  {
    var c := w.running[t];
    if c.request.Elsewhere? then w.(running := w.running[t := c.(phase := Done)])
    else if c.Confirms() then
      var post := c.request.post;
      var act := Executed(post.target, post.proposal, PageLoaded(w, c), |w.session.pages|);
      w.(session := w.session.(executed := w.session.executed + [act]),
         running := w.running[t := c.(phase := Acted)], unsaved := w.unsaved + {post.submitted.value})
    else if c.request.post.refused then w.(running := w.running[t := c.(phase := Done)])
    else
      w.(session := w.session.(nextNonce := w.session.nextNonce + 1),
         running := w.running[t := c.(phase := Asked(w.session.nextNonce))])
  }

  /** The session as this request leaves it: its own two keys over whatever is stored by now. A page counts
      as shown from here on, since no response goes out before. */
  function Stored(w: World, c: Copy): Session {
    if c.request.Elsewhere? then Loaded(w, c)
    else
      var post := c.request.post;
      match c.phase
      case Acted => w.session.(shown := Drop(c.shown, post.target), intent := Drop(c.intent, post.target))
      case Asked(nonce) =>
        w.session.(shown := c.shown[post.target := FingerprintText(post.proposal)],
                   intent := c.intent[post.target := nonce],
                   pages := w.session.pages + [Page(post.target, post.proposal, nonce)])
      case _ => w.session
  }

  function Saved(w: World, t: Thread): World
    requires t in w.running
  {
    var c, others := w.running[t], w.running - {t};
    World(Stored(w, c), others, if c.Saves() then others.Keys else w.stale - {t},
          if c.phase.Acted? && c.Confirms() then w.unsaved - {c.request.post.submitted.value} else w.unsaved)
  }

  ghost function Step(w: World, e: Event): World
    requires CanHappen(w, e)
  {
    match e
    case Load(t, request) =>
      w.(running := w.running[t := Copy(request, w.session.shown, w.session.intent, Pending)], stale := w.stale - {t})
    case Work(t) => Worked(w, t)
    case Save(t) => Saved(w, t)
    case Die(t) => w.(running := w.running - {t}, stale := w.stale - {t})
  }

  ghost predicate CanRun(w: World, events: seq<Event>)
    decreases |events|
  {
    events == [] || (CanHappen(w, events[0]) && CanRun(Step(w, events[0]), events[1..]))
  }

  ghost function RunAll(w: World, events: seq<Event>): World
    requires CanRun(w, events)
    decreases |events|
  {
    if events == [] then w else RunAll(Step(w, events[0]), events[1..])
  }

  /** This event carries out an act. */
  predicate Acts(w: World, e: Event)
    requires CanHappen(w, e)
  {
    e.Work? && w.running[e.thread].Confirms()
  }

  /** Nobody saved between this request's load and what it does now, if it acts or saves. */
  predicate StepInOrder(w: World, e: Event)
    requires CanHappen(w, e)
  {
    Acts(w, e) || (e.Save? && w.running[e.thread].Saves()) ==> e.thread !in w.stale
  }

  ghost predicate InOrder(w: World, events: seq<Event>)
    requires CanRun(w, events)
    decreases |events|
  {
    events == [] || (StepInOrder(w, events[0]) && InOrder(Step(w, events[0]), events[1..]))
  }

  /** Nobody acts on a page that another request acted on and has not saved - because it is not done yet, or
      because it died. */
  predicate StepSettled(w: World, e: Event)
    requires CanHappen(w, e)
  {
    Acts(w, e) ==> w.running[e.thread].request.post.submitted.value !in w.unsaved
  }

  ghost predicate Settled(w: World, events: seq<Event>)
    requires CanRun(w, events)
    decreases |events|
  {
    events == [] || (StepSettled(w, events[0]) && Settled(Step(w, events[0]), events[1..]))
  }

  // ----- What every state of an ordered run keeps -----

  /** Page `i` is the one whose nonce is stored for `t`, and still the newest. */
  ghost predicate Shows(s: Session, t: Target, i: nat) {
    && t in s.intent && i < |s.pages| && s.pages[i].nonce == s.intent[t] && s.pages[i].target == t
    && IsLatest(s.pages, i, |s.pages|)
    && t in s.shown && s.shown[t] == FingerprintText(s.pages[i].proposal)
  }

  ghost predicate EachShows(s: Session) {
    forall t | t in s.intent :: exists i: nat :: Shows(s, t, i)
  }

  /** A nonce drawn for a page that is not out yet is on no page ... */
  ghost predicate NewNonce(w: World, t: Thread) {
    t in w.running && w.running[t].phase.Asked? ==>
      && w.running[t].phase.nonce < w.session.nextNonce
      && forall i | 0 <= i < |w.session.pages| :: w.session.pages[i].nonce != w.running[t].phase.nonce
  }

  /** ... and nobody else's. */
  ghost predicate OwnNonce(w: World, t: Thread, u: Thread) {
    t in w.running && u in w.running && w.running[t].phase.Asked? && w.running[u].phase.Asked? && t != u ==>
      w.running[t].phase.nonce != w.running[u].phase.nonce
  }

  ghost predicate DrawnOk(w: World) {
    (forall t: Thread :: NewNonce(w, t)) && (forall t: Thread, u: Thread :: OwnNonce(w, t, u))
  }

  /** A copy nobody overtook is the stored session. */
  ghost predicate Current(w: World) {
    forall t | t in w.running && t !in w.stale ::
      w.running[t].shown == w.session.shown && w.running[t].intent == w.session.intent
  }

  ghost predicate CopiesOk(w: World) {
    forall t | t in w.running && w.running[t].phase.Acted? :: w.running[t].Confirms()
  }

  /** The nonce of a page acted on is no longer stored, unless its request has not saved. */
  ghost predicate SpentOk(s: Session, unsaved: set<Nonce>) {
    forall k | 0 <= k < |s.executed| ::
      && s.executed[k].page < |s.pages|
      && (s.pages[s.executed[k].page].nonce in unsaved
          || forall t | t in s.intent :: s.intent[t] != s.pages[s.executed[k].page].nonce)
  }

  /** What is unsaved was acted on. */
  ghost predicate UnsavedOk(s: Session, unsaved: set<Nonce>) {
    forall n | n in unsaved :: exists k :: 0 <= k < |s.executed| && s.executed[k].page < |s.pages|
                                           && s.pages[s.executed[k].page].nonce == n
  }

  ghost predicate PhasesOk(w: World) {
    forall t | t in w.running && w.running[t].request.Elsewhere? ::
      w.running[t].phase.Pending? || w.running[t].phase.Done?
  }

  ghost predicate CopiesInv(w: World) { Current(w) && CopiesOk(w) && PhasesOk(w) }

  ghost predicate HistoryInv(s: Session, unsaved: set<Nonce>) {
    EachShows(s) && EachWasShown(s) && SpentOk(s, unsaved) && UnsavedOk(s, unsaved)
  }

  ghost predicate WorldInv(w: World) {
    NoncesInv(w.session) && DrawnOk(w) && CopiesInv(w) && HistoryInv(w.session, w.unsaved)
  }

  lemma StepKeepsNewNonces(w: World, e: Event, t: Thread)
    requires CanHappen(w, e) && NoncesInv(w.session) && DrawnOk(w)
    ensures NewNonce(Step(w, e), t)
  {
    assert NewNonce(w, t) && NewNonce(w, e.thread) && OwnNonce(w, t, e.thread);
  }

  lemma StepKeepsOwnNonces(w: World, e: Event, t: Thread, u: Thread)
    requires CanHappen(w, e) && DrawnOk(w)
    ensures OwnNonce(Step(w, e), t, u)
  {
    assert NewNonce(w, t) && NewNonce(w, u) && OwnNonce(w, t, u);
  }

  lemma StepKeepsPageNonces(w: World, e: Event)
    requires CanHappen(w, e) && NoncesInv(w.session) && DrawnOk(w)
    ensures NoncesInv(Step(w, e).session)
  {
    assert NewNonce(w, e.thread);
  }

  lemma StepKeepsNonces(w: World, e: Event)
    requires CanHappen(w, e) && NoncesInv(w.session) && DrawnOk(w)
    ensures NoncesInv(Step(w, e).session) && DrawnOk(Step(w, e))
  {
    StepKeepsPageNonces(w, e);
    forall t: Thread ensures NewNonce(Step(w, e), t) {
      StepKeepsNewNonces(w, e, t);
    }
    forall t: Thread, u: Thread ensures OwnNonce(Step(w, e), t, u) {
      StepKeepsOwnNonces(w, e, t, u);
    }
  }

  /** A save makes every other request stale, and nothing else changes what is stored. */
  lemma StepKeepsCopies(w: World, e: Event)
    requires CanHappen(w, e) && CopiesInv(w)
    ensures CopiesInv(Step(w, e))
  {
  }

  // What a stored session keeps, one change at a time.

  lemma ShowsAnyway(s: Session, s': Session)
    requires EachShows(s) && s'.shown == s.shown && s'.intent == s.intent && s'.pages == s.pages
    ensures EachShows(s')
  {
    forall t | t in s'.intent ensures exists i: nat :: Shows(s', t, i) {
      var i: nat :| Shows(s, t, i);
      assert Shows(s', t, i);
    }
  }

  lemma WasShownAnyway(s: Session, s': Session)
    requires EachWasShown(s) && s.pages <= s'.pages && s'.executed == s.executed
    ensures EachWasShown(s')
  {
    forall k | 0 <= k < |s'.executed| ensures WasShown(s', s'.executed[k]) {
      assert WasShown(s, s.executed[k]);
    }
  }

  lemma WasShownAfterAct(s: Session, e: Executed)
    requires EachWasShown(s) && Shows(s, e.target, e.page) && e.pagesThen == |s.pages|
    requires s.pages[e.page].proposal == e.proposal
    ensures EachWasShown(s.(executed := s.executed + [e]))
  {
    var s' := s.(executed := s.executed + [e]);
    forall k | 0 <= k < |s'.executed| ensures WasShown(s', s'.executed[k]) {
      assert k < |s.executed| ==> s'.executed[k] == s.executed[k] && WasShown(s, s.executed[k]);
    }
  }

  lemma SpentAfterAct(s: Session, e: Executed, unsaved: set<Nonce>)
    requires SpentOk(s, unsaved) && e.page < |s.pages|
    ensures SpentOk(s.(executed := s.executed + [e]), unsaved + {s.pages[e.page].nonce})
  {
  }

  lemma HistoryAfterAct(s: Session, e: Executed, unsaved: set<Nonce>)
    requires HistoryInv(s, unsaved) && Shows(s, e.target, e.page) && e.pagesThen == |s.pages|
    requires s.pages[e.page].proposal == e.proposal
    ensures HistoryInv(s.(executed := s.executed + [e]), unsaved + {s.pages[e.page].nonce})
  {
    ShowsAnyway(s, s.(executed := s.executed + [e]));
    WasShownAfterAct(s, e);
    SpentAfterAct(s, e, unsaved);
    UnsavedAfterAct(s, e, unsaved);
  }

  lemma UnsavedAfterAct(s: Session, e: Executed, unsaved: set<Nonce>)
    requires UnsavedOk(s, unsaved) && e.page < |s.pages|
    ensures UnsavedOk(s.(executed := s.executed + [e]), unsaved + {s.pages[e.page].nonce})
  {
    var after := s.executed + [e];
    assert after[|s.executed|] == e;
    forall n | n in unsaved
      ensures exists k :: 0 <= k < |after| && after[k].page < |s.pages| && s.pages[after[k].page].nonce == n
    {
      var k :| 0 <= k < |s.executed| && s.executed[k].page < |s.pages| && s.pages[s.executed[k].page].nonce == n;
      assert after[k] == s.executed[k];
    }
  }

  function Without(s: Session, target: Target): Session {
    s.(shown := Drop(s.shown, target), intent := Drop(s.intent, target))
  }

  /** Once the act is saved its nonce is stored for nobody. */
  lemma NonceIsGone(s: Session, target: Target, i: nat)
    requires NoncesInv(s) && EachShows(s) && Shows(s, target, i)
    ensures EachShows(Without(s, target))
    ensures forall t | t in Without(s, target).intent :: Without(s, target).intent[t] != s.pages[i].nonce
  {
    var s' := Without(s, target);
    forall t | t in s'.intent
      ensures (exists j: nat :: Shows(s', t, j)) && s'.intent[t] != s.pages[i].nonce
    {
      var j: nat :| Shows(s, t, j);
      assert Shows(s', t, j) && i != j;
    }
  }

  lemma SpentAfterSavedAct(s: Session, target: Target, i: nat, unsaved: set<Nonce>)
    requires SpentOk(s, unsaved) && UnsavedOk(s, unsaved) && i < |s.pages|
    requires forall t | t in Without(s, target).intent :: Without(s, target).intent[t] != s.pages[i].nonce
    ensures SpentOk(Without(s, target), unsaved - {s.pages[i].nonce})
    ensures UnsavedOk(Without(s, target), unsaved - {s.pages[i].nonce})
  {
    var s' := Without(s, target);
    assert forall t | t in s'.intent :: t in s.intent && s'.intent[t] == s.intent[t];
  }

  lemma HistoryAfterSavedAct(s: Session, target: Target, i: nat, unsaved: set<Nonce>)
    requires NoncesInv(s) && HistoryInv(s, unsaved) && Shows(s, target, i)
    ensures HistoryInv(Without(s, target), unsaved - {s.pages[i].nonce})
  {
    NonceIsGone(s, target, i);
    WasShownAnyway(s, Without(s, target));
    SpentAfterSavedAct(s, target, i, unsaved);
  }

  function WithPage(s: Session, page: Page): Session {
    s.(shown := s.shown[page.target := FingerprintText(page.proposal)],
       intent := s.intent[page.target := page.nonce], pages := s.pages + [page])
  }

  lemma HistoryAfterPage(s: Session, page: Page, unsaved: set<Nonce>)
    requires HistoryInv(s, unsaved) && forall i | 0 <= i < |s.pages| :: s.pages[i].nonce != page.nonce
    ensures HistoryInv(WithPage(s, page), unsaved)
  {
    var s', last := WithPage(s, page), |s.pages|;
    forall t | t in s'.intent ensures exists j: nat :: Shows(s', t, j) {
      if t == page.target {
        assert Shows(s', t, last);
      } else {
        var j: nat :| Shows(s, t, j);
        assert Shows(s', t, j);
      }
    }
    WasShownAnyway(s, s');
    SpentAfterPage(s, page, unsaved);
  }

  lemma SpentAfterPage(s: Session, page: Page, unsaved: set<Nonce>)
    requires SpentOk(s, unsaved) && UnsavedOk(s, unsaved)
    requires forall i | 0 <= i < |s.pages| :: s.pages[i].nonce != page.nonce
    ensures SpentOk(WithPage(s, page), unsaved) && UnsavedOk(WithPage(s, page), unsaved)
  {
    var s' := WithPage(s, page);
    assert forall i | 0 <= i < |s.pages| :: s'.pages[i] == s.pages[i];
    forall n | n in unsaved
      ensures exists k :: 0 <= k < |s'.executed| && s'.executed[k].page < |s'.pages|
                          && s'.pages[s'.executed[k].page].nonce == n
    {
      var k :| 0 <= k < |s.executed| && s.executed[k].page < |s.pages| && s.pages[s.executed[k].page].nonce == n;
      assert s'.pages[s'.executed[k].page].nonce == n;
    }
  }

  lemma HistoryIgnoresTheCounter(s: Session, next: Nonce, unsaved: set<Nonce>)
    requires HistoryInv(s, unsaved)
    ensures HistoryInv(s.(nextNonce := next), unsaved)
  {
    ShowsAnyway(s, s.(nextNonce := next));
    WasShownAnyway(s, s.(nextNonce := next));
  }

  /** A current copy that confirms is about the one page whose nonce it carries, and that page is the newest
      for its person and said just this. */
  lemma ConfirmedPageLoaded(w: World, t: Thread) returns (i: nat)
    requires NoncesInv(w.session) && EachShows(w.session) && Current(w)
    requires t in w.running && t !in w.stale && w.running[t].Confirms()
    ensures var post := w.running[t].request.post;
            && Shows(w.session, post.target, i) && w.session.pages[i].proposal == post.proposal
            && w.session.pages[i].nonce == post.submitted.value && PageLoaded(w, w.running[t]) == i
            && w.session.intent[post.target] == post.submitted.value
  {
    var c := w.running[t];
    var post := c.request.post;
    i :| Shows(w.session, post.target, i);
    assert Loaded(w, c) == w.session;
    assert HasPage(w.session, post.target);
    NonceNamesAPage(w.session, PageOf(w.session, post.target), i);
    FingerprintInjective(post.proposal, w.session.pages[i].proposal);
  }

  lemma WorkKeepsHistory(w: World, t: Thread)
    requires WorldInv(w) && CanHappen(w, Work(t)) && StepInOrder(w, Work(t))
    ensures HistoryInv(Worked(w, t).session, Worked(w, t).unsaved)
  {
    var c := w.running[t];
    if Acts(w, Work(t)) {
      var i := ConfirmedPageLoaded(w, t);
      var post := c.request.post;
      HistoryAfterAct(w.session, Executed(post.target, post.proposal, i, |w.session.pages|), w.unsaved);
    } else if c.request.Submit? && !c.request.post.refused {
      HistoryIgnoresTheCounter(w.session, w.session.nextNonce + 1, w.unsaved);
    }
  }

  lemma SaveKeepsHistory(w: World, t: Thread)
    requires WorldInv(w) && CanHappen(w, Save(t)) && StepInOrder(w, Save(t))
    ensures HistoryInv(Saved(w, t).session, Saved(w, t).unsaved)
  {
    var c := w.running[t];
    assert c.Saves() ==> Loaded(w, c) == w.session;
    if c.request.Submit? && c.phase.Acted? {
      var i := ConfirmedPageLoaded(w, t);
      HistoryAfterSavedAct(w.session, c.request.post.target, i, w.unsaved);
    } else if c.request.Submit? && c.phase.Asked? {
      assert NewNonce(w, t);
      HistoryAfterPage(w.session, Page(c.request.post.target, c.request.post.proposal, c.phase.nonce), w.unsaved);
    }
  }

  lemma StepKeepsWorldInv(w: World, e: Event)
    requires WorldInv(w) && CanHappen(w, e) && StepInOrder(w, e)
    ensures WorldInv(Step(w, e))
  {
    StepKeepsNonces(w, e);
    StepKeepsCopies(w, e);
    match e
    case Work(t) => WorkKeepsHistory(w, t);
    case Save(t) => SaveKeepsHistory(w, t);
    case _ =>
  }

  lemma {:induction false} RunKeepsWorldInv(w: World, events: seq<Event>)
    requires WorldInv(w) && CanRun(w, events) && InOrder(w, events)
    ensures WorldInv(RunAll(w, events))
    decreases |events|
  {
    if events != [] {
      StepKeepsWorldInv(w, events[0]);
      RunKeepsWorldInv(Step(w, events[0]), events[1..]);
    }
  }

  // ----- At most one act per page, exactly -----

  lemma StepOnlyAppends(w: World, e: Event)
    requires CanHappen(w, e)
    ensures |Step(w, e).session.executed| == |w.session.executed| + if Acts(w, e) then 1 else 0
    ensures w.session.executed <= Step(w, e).session.executed
  {
  }

  lemma {:induction false} RunOnlyAppends(w: World, events: seq<Event>)
    requires CanRun(w, events)
    ensures w.session.executed <= RunAll(w, events).session.executed
    decreases |events|
  {
    if events != [] {
      StepOnlyAppends(w, events[0]);
      RunOnlyAppends(Step(w, events[0]), events[1..]);
    }
  }

  /** In order, an act is on a page acted on before exactly when that earlier act is unsaved. */
  lemma ActOncePerPage(s: Session, e: Executed, unsaved: set<Nonce>)
    requires NoncesInv(s) && SpentOk(s, unsaved) && UnsavedOk(s, unsaved) && OncePerPage(s.executed)
    requires Shows(s, e.target, e.page)
    ensures OncePerPage(s.executed + [e]) <==> s.pages[e.page].nonce !in unsaved
  {
    var after, nonce := s.executed + [e], s.pages[e.page].nonce;
    assert after[|s.executed|] == e && s.intent[e.target] == nonce;
    if nonce in unsaved {
      var k :| 0 <= k < |s.executed| && s.executed[k].page < |s.pages| && s.pages[s.executed[k].page].nonce == nonce;
      NonceNamesAPage(s, s.executed[k].page, e.page);
      assert after[k].page == after[|s.executed|].page;
    } else {
      forall k | 0 <= k < |s.executed| ensures s.executed[k].page != e.page {
      }
    }
  }

  lemma StepOncePerPage(w: World, e: Event)
    requires WorldInv(w) && CanHappen(w, e) && StepInOrder(w, e) && OncePerPage(w.session.executed)
    ensures OncePerPage(Step(w, e).session.executed) <==> StepSettled(w, e)
  {
    if Acts(w, e) {
      var i := ConfirmedPageLoaded(w, e.thread);
      var post := w.running[e.thread].request.post;
      ActOncePerPage(w.session, Executed(post.target, post.proposal, i, |w.session.pages|), w.unsaved);
    } else {
      StepOnlyAppends(w, e);
      assert Step(w, e).session.executed == w.session.executed;
    }
  }

  /** Acting twice on a page cannot be undone. */
  lemma TwiceStaysTwice(executed: seq<Executed>, more: seq<Executed>)
    requires executed <= more && !OncePerPage(executed)
    ensures !OncePerPage(more)
  {
    var k, l :| 0 <= k < l < |executed| && executed[k].page == executed[l].page;
    assert more[k] == executed[k] && more[l] == executed[l];
  }

  lemma {:induction false} RunOncePerPage(w: World, events: seq<Event>)
    requires WorldInv(w) && CanRun(w, events) && InOrder(w, events)
    requires OncePerPage(w.session.executed)
    ensures OncePerPage(RunAll(w, events).session.executed) <==> Settled(w, events)
    decreases |events|
  {
    if events != [] {
      var e, next := events[0], Step(w, events[0]);
      StepKeepsWorldInv(w, e);
      StepOncePerPage(w, e);
      if StepSettled(w, e) {
        RunOncePerPage(next, events[1..]);
      } else {
        RunOnlyAppends(next, events[1..]);
        TwiceStaysTwice(next.session.executed, RunAll(next, events[1..]).session.executed);
      }
    }
  }

  const NOBODY_YET := World(NEW_SESSION, map[], {}, {})

  /** When nobody saves the session between another request's load and its act or save, every act carried
      out is the proposal of the newest confirm page shown for that person by then. And then no page
      authorises two acts if and only if nobody acts on a page while a request that acted on it has not
      saved - because it is not done yet, or because it died and never will. */
  lemma ActsAreWhatWasShownInOrder(events: seq<Event>)
    requires CanRun(NOBODY_YET, events) && InOrder(NOBODY_YET, events)
    ensures var s := RunAll(NOBODY_YET, events).session;
            && (forall k | 0 <= k < |s.executed| ::
                  var e := s.executed[k];
                  && IsLatest(s.pages, e.page, e.pagesThen)
                  && s.pages[e.page].target == e.target && s.pages[e.page].proposal == e.proposal)
            && ((forall k, l | 0 <= k < l < |s.executed| :: s.executed[k].page != s.executed[l].page)
                <==> Settled(NOBODY_YET, events))
  {
    RunKeepsWorldInv(NOBODY_YET, events);
    RunOncePerPage(NOBODY_YET, events);
    var s := RunAll(NOBODY_YET, events).session;
    forall k | 0 <= k < |s.executed| ensures WasShown(s, s.executed[k]) {
    }
    assert OncePerPage(s.executed) <==>
           forall k, l | 0 <= k < l < |s.executed| :: s.executed[k].page != s.executed[l].page;
  }

  /** A request nobody overtakes does what a request with the session to itself does. */
  lemma WorkThenSaveIsSubmitted(w: World, t: Thread)
    requires t in w.running && w.running[t].phase.Pending? && w.running[t].request.Submit?
    requires w.running[t].shown == w.session.shown && w.running[t].intent == w.session.intent
    ensures CanHappen(w, Work(t)) && CanHappen(Step(w, Work(t)), Save(t))
    ensures var post := w.running[t].request.post;
            Step(Step(w, Work(t)), Save(t)).session
            == Submitted(w.session, post.target, post.proposal, post.submitted, post.refused)
  {
    assert Loaded(w, w.running[t]) == w.session;
  }

  // ----- What decides an act -----

  lemma OthersLeaveTheCopy(w: World, e: Event, t: Thread)
    requires t in w.running && CanHappen(w, e) && e != Work(t) && e != Save(t) && e != Die(t)
    ensures t in Step(w, e).running && Step(w, e).running[t] == w.running[t]
  {
  }

  /** A submit acts exactly when the session as it loaded it confirms - whatever any other request, another
      submit of that page included, has done by the time its own view runs. */
  lemma {:induction false} LoadedConfirmationActs(w: World, events: seq<Event>, t: Thread)
    requires t in w.running && w.running[t].phase.Pending? && CanRun(w, events)
    requires Work(t) !in events && Die(t) !in events
    ensures var w' := RunAll(w, events);
            && CanHappen(w', Work(t))
            && |Step(w', Work(t)).session.executed|
               == |w'.session.executed| + if w.running[t].Confirms() then 1 else 0
    decreases |events|
  {
    if events == [] {
      StepOnlyAppends(w, Work(t));
    } else {
      OthersLeaveTheCopy(w, events[0], t);
      LoadedConfirmationActs(Step(w, events[0]), events[1..], t);
    }
  }

  lemma RunNext(w: World, e: Event, rest: seq<Event>)
    requires CanHappen(w, e) && CanRun(Step(w, e), rest)
    ensures CanRun(w, [e] + rest) && RunAll(w, [e] + rest) == RunAll(Step(w, e), rest)
    ensures InOrder(w, [e] + rest) <==> StepInOrder(w, e) && InOrder(Step(w, e), rest)
  {
    assert ([e] + rest)[1..] == rest;
  }

  lemma RunOfFive(w: World, a: Event, b: Event, c: Event, d: Event, e: Event)
    requires CanHappen(w, a) && CanHappen(Step(w, a), b) && CanHappen(Step(Step(w, a), b), c)
    requires var w3 := Step(Step(Step(w, a), b), c); CanHappen(w3, d) && CanHappen(Step(w3, d), e)
    ensures CanRun(w, [a, b, c, d, e])
    ensures var w3 := Step(Step(Step(w, a), b), c);
            && RunAll(w, [a, b, c, d, e]) == Step(Step(w3, d), e)
            && (InOrder(w, [a, b, c, d, e]) <==>
                StepInOrder(w, a) && StepInOrder(Step(w, a), b) && StepInOrder(Step(Step(w, a), b), c)
                && StepInOrder(w3, d) && StepInOrder(Step(w3, d), e))
  {
    var w1, w2, w3 := Step(w, a), Step(Step(w, a), b), Step(Step(Step(w, a), b), c);
    var w4 := Step(w3, d);
    assert CanRun(Step(w4, e), []);
    RunNext(w4, e, []);
    RunNext(w3, d, [e]);
    RunNext(w2, c, [d, e]);
    RunNext(w1, b, [c, d, e]);
    RunNext(w, a, [b, c, d, e]);
    assert [e] + [] == [e] && [d] + [e] == [d, e] && [c] + [d, e] == [c, d, e] && [b] + [c, d, e] == [b, c, d, e];
    assert [a] + [b, c, d, e] == [a, b, c, d, e];
  }

  /** Two submits of one outstanding page, the first to load being 0, whichever works first and whether or
      not 0 gets to save: both act unless 0 has saved before the other loads. */
  lemma TwoSubmitsActTwiceExactly(s: Session, post: Post, events: seq<Event>)
    requires Confirms(s, post.target, post.proposal, post.submitted)
    requires var one, two := Load(0, Submit(post)), Load(1, Submit(post));
             events in {[one, Work(0), Save(0), two, Work(1)], [one, Work(0), Die(0), two, Work(1)],
                        [one, Work(0), two, Save(0), Work(1)], [one, Work(0), two, Work(1), Save(0)],
                        [one, two, Work(0), Save(0), Work(1)], [one, two, Work(0), Work(1), Save(0)],
                        [one, two, Work(1), Work(0), Save(0)], [one, two, Work(1), Save(1), Work(0)]}
    ensures var w := World(s, map[], {}, {});
            && CanRun(w, events)
            && |RunAll(w, events).session.executed| == |s.executed| + if events[2] == Save(0) then 1 else 2
  {
    var w := World(s, map[], {}, {});
    var w1 := Step(w, events[0]);
    var w2 := Step(w1, events[1]);
    var w3 := Step(w2, events[2]);
    var w4 := Step(w3, events[3]);
    StepOnlyAppends(w1, events[1]);
    StepOnlyAppends(w2, events[2]);
    StepOnlyAppends(w3, events[3]);
    StepOnlyAppends(w4, events[4]);
    RunOfFive(w, events[0], events[1], events[2], events[3], events[4]);
    assert events == [events[0], events[1], events[2], events[3], events[4]];
  }

  /** The request that acts and dies before its session is saved: nobody saves between anybody's load and
      act, and the page is acted on again. */
  lemma DeathLeavesThePageOpen(s: Session, post: Post)
    requires Confirms(s, post.target, post.proposal, post.submitted)
    ensures var w := World(s, map[], {}, {});
            var events := [Load(0, Submit(post)), Work(0), Die(0), Load(1, Submit(post)), Work(1)];
            CanRun(w, events) && InOrder(w, events) && |RunAll(w, events).session.executed| == |s.executed| + 2
  {
    var w := World(s, map[], {}, {});
    var events := [Load(0, Submit(post)), Work(0), Die(0), Load(1, Submit(post)), Work(1)];
    TwoSubmitsActTwiceExactly(s, post, events);
    RunOfFive(w, events[0], events[1], events[2], events[3], events[4]);
  }

  /** A double tap on a creation then makes two households: the second creation is not refused, since its
      household is another one. (A second addition or removal is, by the act's own check.) */
  lemma DoubleTapMakesTwoHouseholds(db: Households.Db, a: Households.Act, b: Households.Act)
    requires a.Create? && b.Create? && b == a.(newPod := b.newPod) && a.newPod != b.newPod
    requires Households.Possible(db, a) && Households.Possible(db, b) && Households.Check(db, a).None?
    ensures var once := Households.Written(db, a);
            && Households.Possible(once, b) && Households.Check(once, b).None?
            && var twice := Households.Written(once, b);
               && {a.newPod, b.newPod} <= Households.PodsOf(twice, a.member) && {a.newPod, b.newPod} !! db.pods.Keys
               && twice.pods[a.newPod] == twice.pods[b.newPod]
    ensures forall c: Households.Act | c.Add? && c.pod in db.pods ::
              Households.Check(Households.Written(db, c), c) == Some(Households.AlreadyIn)
    ensures forall c: Households.Act | c.Remove? && c.pod in db.pods ::
              Households.Check(Households.Written(db, c), c) == Some(Households.NotIn)
  {
    var twice := Households.Written(Households.Written(db, a), b);
    assert (a.member, a.newPod) in twice.memberships && (a.member, b.newPod) in twice.memberships;
  }

  /** And it is every overlapping save that counts, not only one around a submit: here nothing loads between
      the load and the save of the submit, and yet its page confirms again, because another view loaded
      before it and saved the spent nonce back after it. */
  lemma StaleSaveRevivesASpentPage(s: Session, post: Post) returns (after: World)
    requires Confirms(s, post.target, post.proposal, post.submitted)
    ensures var w := World(s, map[], {}, {});
            var first := Step(Step(w, Load(1, Elsewhere)), Work(1));
            var events := [Load(0, Submit(post)), Work(0), Save(0), Save(1), Load(2, Submit(post))];
            && CanRun(first, events) && after == RunAll(first, events)
            && CanHappen(after, Work(2))
            && |Step(after, Work(2)).session.executed| == |s.executed| + 2
  {
    var w := World(s, map[], {}, {});
    var first := Step(Step(w, Load(1, Elsewhere)), Work(1));
    var w2 := Step(Step(first, Load(0, Submit(post))), Work(0));
    var w4 := Step(Step(w2, Save(0)), Save(1));
    assert w4.session.shown == s.shown && w4.session.intent == s.intent;
    RunOfFive(first, Load(0, Submit(post)), Work(0), Save(0), Save(1), Load(2, Submit(post)));
    after := Step(w4, Load(2, Submit(post)));
    StepOnlyAppends(Step(first, Load(0, Submit(post))), Work(0));
    StepOnlyAppends(w2, Save(0));
    StepOnlyAppends(Step(w2, Save(0)), Save(1));
    StepOnlyAppends(after, Work(2));
  }
}
