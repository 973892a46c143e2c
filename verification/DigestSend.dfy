/** Sending: one (member, yard) issue per transaction, with two nested savepoints; one recipient's
    turn over their yards; and what every interleaving of turns and settings changes keeps. */
module DigestSend {
  import opened Wrappers
  import opened Text
  import opened DigestStore
  import opened Digesting

  datatype Post = Post(id: nat, createdAt: Time, isArrival: bool)

  /** `window_posts`: what was written, and visible at the time of the look, in one window. */
  function WindowPosts(look: set<Post>, start: Time, end: Time): set<Post> {
    set p | p in look && !p.isArrival && start <= p.createdAt < end
  }

  /** What the world does to one send: the mail goes, the relay refuses it, the relay takes it and the
      connection then fails, or the process dies before or after the message was handed over. */
  datatype Fate = Relayed | Refused | TakenThenError | CrashBefore | CrashAfter

  /** One call: the yard, whether it is among the member's at this moment, the two looks at the posts
      visible there, and the run's unsubscribe token if an earlier yard drew one. */
  datatype Call = Call(
    member: MemberId, yard: YardId, inYard: bool, windowEnd: Time, look: set<Post>, secondLook: set<Post>,
    unsubscribeRaw: Option<nat>, fate: Fate)

  datatype Outcome = Sent | Failed | Skipped | Crashed

  datatype SendResult = SendResult(outcome: Outcome, unsubscribeRaw: Option<nat>, state: State)

  /** Where this yard's next window starts: its newest issue's end, or the confirmation. */
  function Anchor(db: Db, m: MemberId, y: YardId): Time
    requires m in db.subscriptions && db.subscriptions[m].confirmedAt.Some?
  {
    var mine := IssuesOf(db.issues, m, y);
    if mine == [] then db.subscriptions[m].confirmedAt.value else mine[|mine| - 1].end
  }

  predicate MaySend(s: State, c: Call) {
    && c.member in s.db.subscriptions && s.db.subscriptions[c.member].enabled
    && s.db.subscriptions[c.member].confirmedAt.Some? && c.inYard
    && Anchor(s.db, c.member, c.yard) < c.windowEnd
    && WindowPosts(c.look, Anchor(s.db, c.member, c.yard), c.windowEnd) != {}
  }

  function IssueFor(s: State, c: Call): Issue
    requires MaySend(s, c)
  {
    Issue(c.member, c.yard, Anchor(s.db, c.member, c.yard), c.windowEnd)
  }

  /** The token values a send draws stay drawn, whatever else is rolled back. */
  function Drawn(s: State, c: Call): State {
    s.(nextRaw := s.nextRaw + if c.unsubscribeRaw.Some? then 1 else 2)
  }

  function LinkToken(s: State, c: Call): nat {
    if c.unsubscribeRaw.Some? then c.unsubscribeRaw.value else s.nextRaw + 1
  }

  function MessageFor(s: State, c: Call): Mail
    requires MaySend(s, c)
  {
    Content(s.db.subscriptions[c.member].address, c.member, IssueFor(s, c), LinkToken(s, c))
  }

  /** A transport error: the issue and the refusal stay, the tokens do not. */
  function FailedState(s: State, c: Call): State
    requires MaySend(s, c)
  {
    var issue := IssueFor(s, c);
    Drawn(s, c).(db := s.db.(issues := s.db.issues + [issue], deliveries := s.db.deliveries + [Rejected(issue)]))
  }

  /** Rotated, unless an earlier yard of the run already did. */
  function Rotated(s: State, c: Call): State
    requires c.member in s.db.subscriptions
  {
    if c.unsubscribeRaw.Some? then Drawn(s, c)
    else WithSubscription(Drawn(s, c), c.member,
                          s.db.subscriptions[c.member].(unsubscribeHash := HashOf(LinkToken(s, c))))
  }

  function SentState(s: State, c: Call): State
    requires MaySend(s, c)
  {
    var issue := IssueFor(s, c);
    var t := Mailed(Rotated(s, c), MessageFor(s, c));
    t.(db := t.db.(issues := s.db.issues + [issue], tokens := s.db.tokens + [ReadToken(issue, HashOf(s.nextRaw))],
                   deliveries := s.db.deliveries + [HandedToRelay(issue)]))
  }

  /** The relay took the mail, then the connection failed: recorded as refused, and out all the same. */
  function TakenState(s: State, c: Call): State
    requires MaySend(s, c)
  {
    Mailed(FailedState(s, c), MessageFor(s, c))
  }

  /** The process died after handing over: nothing recorded, and out all the same. */
  function CrashedState(s: State, c: Call): State
    requires MaySend(s, c)
  {
    Mailed(Drawn(s, c), MessageFor(s, c))
  }

  /** The net effect of one send, crash and rollbacks included. */
  function SendAfter(s: State, c: Call): SendResult {
    if c.member !in s.db.subscriptions then SendResult(Crashed, c.unsubscribeRaw, s)
    else if !MaySend(s, c) then SendResult(Skipped, c.unsubscribeRaw, s)
    else if c.fate == CrashBefore then SendResult(Crashed, c.unsubscribeRaw, Drawn(s, c))
    else if WindowPosts(c.secondLook, IssueFor(s, c).start, c.windowEnd) == {} then
      SendResult(Skipped, c.unsubscribeRaw, Drawn(s, c))
    else if c.fate == Refused then SendResult(Failed, c.unsubscribeRaw, FailedState(s, c))
    else if c.fate == TakenThenError then SendResult(Failed, c.unsubscribeRaw, TakenState(s, c))
    else if c.fate == Relayed then SendResult(Sent, Some(LinkToken(s, c)), SentState(s, c))
    else SendResult(Crashed, c.unsubscribeRaw, CrashedState(s, c))
  }

  // ----- One send -----

  /** The window a new issue opens is one nobody holds: `get_or_create` always creates. */
  lemma WindowIsNew(s: State, c: Call, i: Issue)
    requires WindowsInv(s) && MaySend(s, c) && i in s.db.issues && i.member == c.member && i.yard == c.yard
    ensures i.end <= IssueFor(s, c).start && i.start < IssueFor(s, c).start
  {
    var mine := IssuesOf(s.db.issues, c.member, c.yard);
    InIssuesOf(s.db.issues, i);
    var k: nat :| k < |mine| && mine[k] == i;
    if k < |mine| - 1 {
      ChainIsOrdered(mine, k, |mine| - 1);
    }
  }

  lemma {:induction false} InIssuesOf(issues: seq<Issue>, i: Issue)
    requires i in issues
    ensures i in IssuesOf(issues, i.member, i.yard)
  {
    var last := |issues| - 1;
    if issues[last] != i {
      InIssuesOf(issues[..last], i);
    }
  }

  lemma {:induction false} OnlyIssuesOf(issues: seq<Issue>, m: MemberId, y: YardId, i: Issue)
    requires i in IssuesOf(issues, m, y)
    ensures i in issues && i.member == m && i.yard == y
  {
    var last := |issues| - 1;
    if i in IssuesOf(issues[..last], m, y) {
      OnlyIssuesOf(issues[..last], m, y, i);
    }
  }

  lemma AppendedChain(s: seq<Issue>, i: Issue)
    requires Chain(s) && i.start < i.end && (s != [] ==> i.start == s[|s| - 1].end)
    ensures Chain(s + [i])
  {
  }

  /** `t` is `s` with the new window's issue, and whatever the tokens and deliveries say. */
  lemma OpeningAWindowKeepsInv(s: State, t: State, c: Call)
    requires Inv(s) && MaySend(s, c) && t == s.(db := t.db)
    requires t.db.subscriptions == s.db.subscriptions && t.db.issues == s.db.issues + [IssueFor(s, c)]
    ensures Inv(t)
  {
    forall m, y ensures Chain(IssuesOf(t.db.issues, m, y)) {
      IssuesOfSnoc(s.db.issues, IssueFor(s, c), m, y);
      if m == c.member && y == c.yard {
        AppendedChain(IssuesOf(s.db.issues, m, y), IssueFor(s, c));
      }
    }
  }

  lemma MailingContentKeepsInv(s: State, m: MemberId, issue: Issue, raw: nat)
    requires Inv(s) && m in s.db.subscriptions && s.db.subscriptions[m].confirmedAt.Some?
    ensures Inv(Mailed(s, Content(s.db.subscriptions[m].address, m, issue, raw)))
  {
    var t := Mailed(s, Content(s.db.subscriptions[m].address, m, issue, raw));
    assert TokensInv(t);
    assert ConsentInv(t);
  }

  lemma RotatingKeepsInv(s: State, c: Call)
    requires Inv(s) && c.member in s.db.subscriptions
    ensures Inv(Rotated(s, c)) && Inv(Drawn(s, c))
  {
    DrawingKeepsInv(s, if c.unsubscribeRaw.Some? then 1 else 2);
    if c.unsubscribeRaw.None? {
      ReplacingKeepsInv(Drawn(s, c), c.member,
                        s.db.subscriptions[c.member].(unsubscribeHash := HashOf(LinkToken(s, c))));
    }
  }

  lemma SentKeepsInv(s: State, c: Call)
    requires Inv(s) && MaySend(s, c)
    ensures Inv(SentState(s, c))
  {
    RotatingKeepsInv(s, c);
    MailingContentKeepsInv(Rotated(s, c), c.member, IssueFor(s, c), LinkToken(s, c));
    OpeningAWindowKeepsInv(Mailed(Rotated(s, c), MessageFor(s, c)), SentState(s, c), c);
  }

  lemma FailedKeepsInv(s: State, c: Call)
    requires Inv(s) && MaySend(s, c)
    ensures Inv(FailedState(s, c))
  {
    RotatingKeepsInv(s, c);
    OpeningAWindowKeepsInv(Drawn(s, c), FailedState(s, c), c);
  }

  lemma TakenKeepsInv(s: State, c: Call)
    requires Inv(s) && MaySend(s, c)
    ensures Inv(TakenState(s, c))
  {
    FailedKeepsInv(s, c);
    MailingContentKeepsInv(FailedState(s, c), c.member, IssueFor(s, c), LinkToken(s, c));
  }

  lemma CrashedKeepsInv(s: State, c: Call)
    requires Inv(s) && MaySend(s, c)
    ensures Inv(CrashedState(s, c)) && Inv(Drawn(s, c))
  {
    RotatingKeepsInv(s, c);
    MailingContentKeepsInv(Drawn(s, c), c.member, IssueFor(s, c), LinkToken(s, c));
  }

  /** The states a send can leave. */
  predicate LeftBySend(s: State, c: Call, t: State) {
    || t == s
    || (MaySend(s, c) && t in {Drawn(s, c), FailedState(s, c), TakenState(s, c), SentState(s, c), CrashedState(s, c)})
  }

  lemma SendLeavesOneOfThem(s: State, c: Call)
    ensures LeftBySend(s, c, SendAfter(s, c).state)
  {
  }

  lemma EachOfThemKeepsInv(s: State, c: Call, t: State)
    requires Inv(s) && LeftBySend(s, c, t)
    ensures Inv(t)
  {
    if t != s {
      CrashedKeepsInv(s, c);
      if t == FailedState(s, c) {
        FailedKeepsInv(s, c);
      } else if t == TakenState(s, c) {
        TakenKeepsInv(s, c);
      } else if t == SentState(s, c) {
        SentKeepsInv(s, c);
      }
    }
  }

  /** Sending keeps everything; in particular content goes only to a proven mailbox. */
  lemma SendKeepsInv(s: State, c: Call)
    requires Inv(s)
    ensures Inv(SendAfter(s, c).state)
  {
    SendLeavesOneOfThem(s, c);
    EachOfThemKeepsInv(s, c, SendAfter(s, c).state);
  }

  /** What one send does to the windows of any (member, yard): nothing, or one more of its own, and
      only when it sent or recorded a transport error. */
  lemma SendMovesOneWindow(s: State, c: Call, m: MemberId, y: YardId)
    ensures var r := SendAfter(s, c);
            IssuesOf(r.state.db.issues, m, y) == IssuesOf(s.db.issues, m, y)
              + if r.outcome in {Sent, Failed} && m == c.member && y == c.yard then [IssueFor(s, c)] else []
    ensures var r := SendAfter(s, c);
            r.outcome in {Skipped, Crashed} ==> r.state.db == s.db && r.unsubscribeRaw == c.unsubscribeRaw
  {
    if SendAfter(s, c).outcome in {Sent, Failed} {
      IssuesOfSnoc(s.db.issues, IssueFor(s, c), m, y);
    }
  }

  // ----- Every run -----

  datatype Act =
    | Subscribe(m: MemberId, address: string, cadence: string, now: Time, delivered: bool)
    | Confirm(raw: nat, now: Time)
    | Unsubscribe(raw: nat)
    | Switch(m: MemberId, enabled: bool)
    | ConfirmAccount(m: MemberId, now: Time)
    | ChangeSignIn(m: MemberId, to: Option<SignIn>)
    | Void(m: MemberId)
    | Send(call: Call)

  ghost function After(s: State, a: Act): State {
    match a
    case Subscribe(m, address, cadence, now, delivered) => Subscribed(s, m, address, cadence, now, delivered)
    case Confirm(raw, now) => Confirmed(s, raw, now)
    case Unsubscribe(raw) => Unsubscribed(s, raw)
    case Switch(m, enabled) => Switched(s, m, enabled)
    case ConfirmAccount(m, now) => AccountConfirmed(s, m, now)
    case ChangeSignIn(m, to) => SignInChanged(s, m, to)
    case Void(m) => Voided(s, m)
    case Send(c) => SendAfter(s, c).state
  }

  /** Confirm tokens are presented only by whoever was mailed them, and an address is switched to as
      already verified only when it was verified for this member. */
  ghost predicate CanHappen(s: State, a: Act) {
    match a
    case Confirm(raw, _) => Presentable(s, raw)
    case ChangeSignIn(m, to) => to.Some? && to.value.verified ==> (m, Lower(to.value.email)) in s.proven
    case _ => true
  }

  ghost predicate CanRun(s: State, acts: seq<Act>)
    decreases |acts|
  {
    acts == [] || (CanHappen(s, acts[0]) && CanRun(After(s, acts[0]), acts[1..]))
  }

  ghost function Run(s: State, acts: seq<Act>): State
    decreases |acts|
  {
    if acts == [] then s else Run(After(s, acts[0]), acts[1..])
  }

  lemma StepKeepsInv(s: State, a: Act)
    requires Inv(s) && CanHappen(s, a)
    ensures Inv(After(s, a))
  {
    match a
    case Subscribe(m, address, cadence, now, delivered) => SubscribedKeepsInv(s, m, address, cadence, now, delivered);
    case Confirm(raw, now) => ConfirmedKeepsInv(s, raw, now);
    case Unsubscribe(raw) => SwitchesKeepInv(s, 0, raw, false);
    case Switch(m, enabled) => SwitchesKeepInv(s, m, 0, enabled);
    case ConfirmAccount(m, now) => AccountConfirmedKeepsInv(s, m, now);
    case ChangeSignIn(_, _) =>
    case Void(m) => SwitchesKeepInv(s, m, 0, false);
    case Send(c) => SendKeepsInv(s, c);
  }

  const EMPTY := State(Db(map[], [], [], []), map[], [], {}, 0)

  /** In every state any interleaving of runs and settings changes can reach: confirmation came before
      content, tokens are nobody else's, and each (member, yard)'s windows form a chain. */
  lemma {:induction false} EveryRunKeepsInv(s: State, acts: seq<Act>)
    requires Inv(s) && CanRun(s, acts)
    ensures Inv(Run(s, acts))
    decreases |acts|
  {
    if acts != [] {
      StepKeepsInv(s, acts[0]);
      EveryRunKeepsInv(After(s, acts[0]), acts[1..]);
    }
  }

  lemma OtherActsLeaveIssues(s: State, a: Act)
    requires !a.Send?
    ensures After(s, a).db.issues == s.db.issues
  {
  }

  lemma StepOnlyAppends(s: State, a: Act, m: MemberId, y: YardId)
    ensures IssuesOf(s.db.issues, m, y) <= IssuesOf(After(s, a).db.issues, m, y)
  {
    if a.Send? {
      SendMovesOneWindow(s, a.call, m, y);
    } else {
      OtherActsLeaveIssues(s, a);
    }
  }

  /** The windows of a (member, yard) only ever grow at the end: no issue moves, merges or goes. */
  lemma {:induction false} WindowsOnlyAppend(s: State, acts: seq<Act>, m: MemberId, y: YardId)
    ensures IssuesOf(s.db.issues, m, y) <= IssuesOf(Run(s, acts).db.issues, m, y)
    decreases |acts|
  {
    if acts != [] {
      StepOnlyAppends(s, acts[0], m, y);
      WindowsOnlyAppend(After(s, acts[0]), acts[1..], m, y);
    }
  }

  lemma OneIssueCovers(issues: seq<Issue>, m: MemberId, y: YardId, t: Time) returns (issue: Issue)
    requires var mine := IssuesOf(issues, m, y);
             Chain(mine) && mine != [] && mine[0].start <= t < mine[|mine| - 1].end
    ensures issue in issues && issue.member == m && issue.yard == y
    ensures forall i | i in issues && i.member == m && i.yard == y :: Covers(i, t) <==> i == issue
  {
    var mine := IssuesOf(issues, m, y);
    var k := ChainTiles(mine, t);
    issue := mine[k];
    OnlyIssuesOf(issues, m, y, issue);
    forall i | i in issues && i.member == m && i.yard == y ensures Covers(i, t) <==> i == issue {
      InIssuesOf(issues, i);
      var j: nat :| j < |mine| && mine[j] == i;
    }
  }

  /** No gap and no overlap: after any run from the start, a written post of the covered range that this
      member can see is in the window of exactly one issue. (An issue the relay refused keeps its window,
      so what was in it leaves in no message.) */
  lemma EachPostIsInOneIssue(acts: seq<Act>, m: MemberId, y: YardId, post: Post, look: set<Post>)
    returns (issue: Issue)
    requires CanRun(EMPTY, acts) && post in look && !post.isArrival
    requires var mine := IssuesOf(Run(EMPTY, acts).db.issues, m, y);
             mine != [] && mine[0].start <= post.createdAt < mine[|mine| - 1].end
    ensures var issues := Run(EMPTY, acts).db.issues;
            && issue in issues && issue.member == m && issue.yard == y
            && forall i | i in issues && i.member == m && i.yard == y ::
                 post in WindowPosts(look, i.start, i.end) <==> i == issue
  {
    EveryRunKeepsInv(EMPTY, acts);
    issue := OneIssueCovers(Run(EMPTY, acts).db.issues, m, y, post.createdAt);
    assert forall i: Issue :: post in WindowPosts(look, i.start, i.end) <==> Covers(i, post.createdAt);
  }

  // ----- The transaction -----

  /** `_send_one`: everything re-read inside the transaction, a savepoint around the window and one
      inside it around the tokens, and a crash that undoes the whole of it. */
  method SendOne(store: Store, c: Call) returns (outcome: Outcome, unsubscribeRaw: Option<nat>)
    requires WindowsInv(store.s)
    modifies store
    ensures SendAfter(old(store.s), c) == SendResult(outcome, unsubscribeRaw, store.s)
  {
    unsubscribeRaw := c.unsubscribeRaw;
    var transaction := store.s.db;
    if c.member !in transaction.subscriptions { return Crashed, unsubscribeRaw; }
    var sub := transaction.subscriptions[c.member];
    if !sub.enabled || sub.confirmedAt.None? { return Skipped, unsubscribeRaw; }
    if !c.inYard { return Skipped, unsubscribeRaw; }
    var start := Anchor(transaction, c.member, c.yard);
    if start >= c.windowEnd { return Skipped, unsubscribeRaw; }
    if WindowPosts(c.look, start, c.windowEnd) == {} { return Skipped, unsubscribeRaw; }

    var windowSavepoint := store.s.db;
    var issue := Issue(c.member, c.yard, start, c.windowEnd);
    if i :| i in transaction.issues && i.member == c.member && i.yard == c.yard && i.start == start {
      WindowIsNew(store.s, c, i);
      assert false;
      return Skipped, unsubscribeRaw;
    }
    store.s := store.s.(db := store.s.db.(issues := transaction.issues + [issue]));

    var savepoint := store.s.db;
    var read := DrawToken(store);
    store.s := store.s.(db := store.s.db.(tokens := store.s.db.tokens + [ReadToken(issue, HashOf(read))]));
    var rotatedHere := false;
    if unsubscribeRaw.None? {
      var raw := RotateUnsubscribe(store, c.member);
      unsubscribeRaw := Some(raw);
      rotatedHere := true;
    }
    if c.fate == CrashBefore {
      store.s := store.s.(db := transaction);
      return Crashed, c.unsubscribeRaw;
    }
    if WindowPosts(c.secondLook, start, c.windowEnd) == {} {
      store.s := store.s.(db := windowSavepoint);
      return Skipped, if rotatedHere then None else unsubscribeRaw;
    }
    if c.fate == Refused || c.fate == TakenThenError {
      if c.fate == TakenThenError {
        store.s := Mailed(store.s, Content(sub.address, c.member, issue, unsubscribeRaw.value));
      }
      store.s := store.s.(db := savepoint);
      store.s := store.s.(db := store.s.db.(deliveries := store.s.db.deliveries + [Rejected(issue)]));
      return Failed, if rotatedHere then None else unsubscribeRaw;
    }
    store.s := Mailed(store.s, Content(sub.address, c.member, issue, unsubscribeRaw.value));
    if c.fate == CrashAfter {
      store.s := store.s.(db := transaction);
      return Crashed, c.unsubscribeRaw;
    }
    store.s := store.s.(db := store.s.db.(deliveries := store.s.db.deliveries + [HandedToRelay(issue)]));
    return Sent, unsubscribeRaw;
  }

  // ----- What a send changes, and what it hands over -----

  function NewMail(before: State, after: State): seq<Mail> {
    if |before.outbox| <= |after.outbox| then after.outbox[|before.outbox|..] else []
  }

  /** What a send changes of the subscriptions: at most the member's own digest, to a token just drawn. */
  lemma SendEffects(s: State, c: Call)
    ensures var r := SendAfter(s, c);
            && s.nextRaw <= r.state.nextRaw
            && (r.outcome != Sent ==> r.unsubscribeRaw == c.unsubscribeRaw
                                      && r.state.db.subscriptions == s.db.subscriptions)
            && (r.outcome == Sent ==>
                  && c.member in s.db.subscriptions && r.unsubscribeRaw == Some(LinkToken(s, c))
                  && r.state.db.subscriptions ==
                     if c.unsubscribeRaw.Some? then s.db.subscriptions
                     else s.db.subscriptions[c.member :=
                            s.db.subscriptions[c.member].(unsubscribeHash := HashOf(LinkToken(s, c)))])
  {
    if MaySend(s, c) {
      var sub := s.db.subscriptions[c.member];
      assert s.db.subscriptions[c.member := sub] == s.db.subscriptions;
    }
  }

  /** What a send hands over: nothing, or its one message, whose token was drawn by then. */
  lemma SendHandsOver(s: State, c: Call)
    ensures var r := SendAfter(s, c);
            if NewMail(s, r.state) == [] then r.state.outbox == s.outbox && r.outcome != Sent
            else
              && MaySend(s, c) && NewMail(s, r.state) == [MessageFor(s, c)]
              && r.state.outbox == s.outbox + [MessageFor(s, c)] && r.outcome != Skipped
              && (c.unsubscribeRaw.None? ==> s.nextRaw <= LinkToken(s, c) < r.state.nextRaw)
  {
  }
}
