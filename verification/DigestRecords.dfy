/** What the database records of every send, against what left the building: each issue has its one
    delivery, each handed-over one its read token and its message, and nothing is half recorded. */
module DigestRecords {
  import opened DigestStore
  import opened DigestSend

  /** What an issue covers, and what makes two messages the same news: whose, where, from when. */
  datatype Window = Window(member: MemberId, yard: YardId, start: Time)

  function WindowOf(i: Issue): Window { Window(i.member, i.yard, i.start) }

  /** The issues handed to the relay, oldest first. */
  function HandedOver(deliveries: seq<Delivery>): seq<Issue> {
    if deliveries == [] then []
    else
      var last := deliveries[|deliveries| - 1];
      HandedOver(deliveries[..|deliveries| - 1]) + if last.HandedToRelay? then [last.issue] else []
  }

  function TokenIssues(tokens: seq<ReadToken>): seq<Issue> {
    seq(|tokens|, i requires 0 <= i < |tokens| => tokens[i].issue)
  }

  function TimesIn(issues: seq<Issue>, w: Window): nat {
    if issues == [] then 0
    else TimesIn(issues[..|issues| - 1], w) + if WindowOf(issues[|issues| - 1]) == w then 1 else 0
  }

  function IsNewsOf(mail: Mail, w: Window): bool { mail.Content? && WindowOf(mail.issue) == w }

  /** How many messages with this window's news left. */
  function TimesMailed(outbox: seq<Mail>, w: Window): nat {
    if outbox == [] then 0
    else TimesMailed(outbox[..|outbox| - 1], w) + if IsNewsOf(outbox[|outbox| - 1], w) then 1 else 0
  }

  /** The deliveries are those of the issues, one each and in order; the read tokens are those of the
      issues handed over, one each and in order; and no two issues share a window. */
  ghost predicate Recorded(db: Db) {
    && |db.deliveries| == |db.issues|
    && (forall i | 0 <= i < |db.issues| :: db.deliveries[i].issue == db.issues[i])
    && TokenIssues(db.tokens) == HandedOver(db.deliveries)
    && forall i, j | 0 <= i < j < |db.issues| :: WindowOf(db.issues[i]) != WindowOf(db.issues[j])
  }

  lemma HandedOverSnoc(deliveries: seq<Delivery>, d: Delivery)
    ensures HandedOver(deliveries + [d])
         == if d.HandedToRelay? then HandedOver(deliveries) + [d.issue] else HandedOver(deliveries)
  {
    assert (deliveries + [d])[..|deliveries|] == deliveries;
  }

  lemma TimesInSnoc(issues: seq<Issue>, i: Issue, w: Window)
    ensures TimesIn(issues + [i], w) == TimesIn(issues, w) + if WindowOf(i) == w then 1 else 0
  {
    assert (issues + [i])[..|issues|] == issues;
  }

  lemma TimesMailedSnoc(outbox: seq<Mail>, mail: Mail, w: Window)
    ensures TimesMailed(outbox + [mail], w) == TimesMailed(outbox, w) + if IsNewsOf(mail, w) then 1 else 0
  {
    assert (outbox + [mail])[..|outbox|] == outbox;
  }

  /** A send writes an issue, its delivery and - when it was sent - its read token, or none of them. */
  lemma SendRecords(s: State, c: Call)
    ensures var r := SendAfter(s, c);
            if r.outcome == Sent then
              && MaySend(s, c) && r.state.db.issues == s.db.issues + [IssueFor(s, c)]
              && r.state.db.deliveries == s.db.deliveries + [HandedToRelay(IssueFor(s, c))]
              && TokenIssues(r.state.db.tokens) == TokenIssues(s.db.tokens) + [IssueFor(s, c)]
            else if r.outcome == Failed then
              && MaySend(s, c) && r.state.db.issues == s.db.issues + [IssueFor(s, c)]
              && r.state.db.deliveries == s.db.deliveries + [Rejected(IssueFor(s, c))]
              && r.state.db.tokens == s.db.tokens
            else r.state.db == s.db
  {
  }

  lemma OtherActsRecordNothing(s: State, a: Act, w: Window)
    requires !a.Send?
    ensures var t := After(s, a).db;
            t.issues == s.db.issues && t.deliveries == s.db.deliveries && t.tokens == s.db.tokens
    ensures TimesMailed(After(s, a).outbox, w) == TimesMailed(s.outbox, w)
  {
    if a.Subscribe? && After(s, a).outbox != s.outbox {
      TimesMailedSnoc(s.outbox, Confirmation(a.address, a.m, s.nextRaw), w);
    }
  }

  /** One more issue, of a window of its own, with its delivery and, if handed over, its token. */
  lemma OneMoreRecorded(db: Db, t: Db, issue: Issue, d: Delivery)
    requires Recorded(db) && d.issue == issue && forall i | i in db.issues :: WindowOf(i) != WindowOf(issue)
    requires t.issues == db.issues + [issue] && t.deliveries == db.deliveries + [d]
    requires TokenIssues(t.tokens)
             == if d.HandedToRelay? then TokenIssues(db.tokens) + [issue] else TokenIssues(db.tokens)
    ensures Recorded(t)
  {
    HandedOverSnoc(db.deliveries, d);
    assert forall i | 0 <= i < |db.issues| :: db.issues[i] in db.issues;
  }

  lemma NobodyHasTheWindow(s: State, c: Call)
    requires WindowsInv(s) && MaySend(s, c)
    ensures forall i | i in s.db.issues :: WindowOf(i) != WindowOf(IssueFor(s, c))
  {
    forall i | i in s.db.issues ensures WindowOf(i) != WindowOf(IssueFor(s, c)) {
      if i.member == c.member && i.yard == c.yard {
        WindowIsNew(s, c, i);
      }
    }
  }

  lemma SendKeepsRecords(s: State, c: Call)
    requires WindowsInv(s) && Recorded(s.db)
    ensures Recorded(SendAfter(s, c).state.db)
  {
    SendRecords(s, c);
    var r := SendAfter(s, c);
    if r.outcome == Sent || r.outcome == Failed {
      var issue := IssueFor(s, c);
      NobodyHasTheWindow(s, c);
      OneMoreRecorded(s.db, r.state.db, issue, if r.outcome == Sent then HandedToRelay(issue) else Rejected(issue));
    }
  }

  lemma StepKeepsRecords(s: State, a: Act)
    requires WindowsInv(s) && Recorded(s.db)
    ensures Recorded(After(s, a).db)
  {
    if a.Send? {
      SendKeepsRecords(s, a.call);
    } else {
      OtherActsRecordNothing(s, a, Window(0, 0, 0));
    }
  }

  /** A send that handed its message over and then did not record it as sent: a crash, or a transport
      error after the relay had taken it. */
  predicate IsStray(s: State, a: Act, w: Window) {
    a.Send? && SendAfter(s, a.call).outcome != Sent && MaySend(s, a.call)
    && NewMail(s, SendAfter(s, a.call).state) != [] && WindowOf(IssueFor(s, a.call)) == w
  }

  ghost function Strays(s: State, acts: seq<Act>, w: Window): nat
    decreases |acts|
  {
    if acts == [] then 0
    else (if IsStray(s, acts[0], w) then 1 else 0) + Strays(After(s, acts[0]), acts[1..], w)
  }

  /** One act adds as many messages of a window as it adds handed-over records and strays. */
  lemma StepBalances(s: State, a: Act, w: Window)
    ensures TimesMailed(After(s, a).outbox, w) + TimesIn(HandedOver(s.db.deliveries), w)
         == TimesMailed(s.outbox, w) + TimesIn(HandedOver(After(s, a).db.deliveries), w)
            + if IsStray(s, a, w) then 1 else 0
  {
    if !a.Send? {
      OtherActsRecordNothing(s, a, w);
    } else {
      SendRecords(s, a.call);
      SendHandsOver(s, a.call);
      if MaySend(s, a.call) {
        var issue := IssueFor(s, a.call);
        TimesMailedSnoc(s.outbox, MessageFor(s, a.call), w);
        HandedOverSnoc(s.db.deliveries, HandedToRelay(issue));
        HandedOverSnoc(s.db.deliveries, Rejected(issue));
        TimesInSnoc(HandedOver(s.db.deliveries), issue, w);
      }
    }
  }

  lemma {:induction false} RunBalances(s: State, acts: seq<Act>, w: Window)
    requires Inv(s) && Recorded(s.db) && CanRun(s, acts)
    ensures var t := Run(s, acts);
            && Recorded(t.db)
            && TimesMailed(t.outbox, w) + TimesIn(HandedOver(s.db.deliveries), w)
            == TimesMailed(s.outbox, w) + TimesIn(HandedOver(t.db.deliveries), w) + Strays(s, acts, w)
    decreases |acts|
  {
    if acts != [] {
      StepKeepsInv(s, acts[0]);
      StepKeepsRecords(s, acts[0]);
      StepBalances(s, acts[0], w);
      RunBalances(After(s, acts[0]), acts[1..], w);
    }
  }

  lemma {:induction false} HandedOverOnce(db: Db, w: Window, n: nat)
    requires Recorded(db) && n <= |db.issues|
    ensures TimesIn(HandedOver(db.deliveries[..n]), w) <= 1
    ensures (forall i | 0 <= i < n :: WindowOf(db.issues[i]) != w) ==>
              TimesIn(HandedOver(db.deliveries[..n]), w) == 0
  {
    if n > 0 {
      HandedOverOnce(db, w, n - 1);
      assert db.deliveries[..n] == db.deliveries[..n - 1] + [db.deliveries[n - 1]];
      HandedOverSnoc(db.deliveries[..n - 1], db.deliveries[n - 1]);
      TimesInSnoc(HandedOver(db.deliveries[..n - 1]), db.deliveries[n - 1].issue, w);
    }
  }

  /** Fully recorded or fully absent. After any run from the start every issue has exactly one delivery and
      exactly the handed-over ones have a read token; and a window's news was mailed once if it was handed
      over and not at all otherwise, but for strays. So only a crash or a transport error after the relay
      took the mail can have it mailed twice, or mailed and recorded as refused. */
  lemma FullyRecordedOrAbsent(acts: seq<Act>, w: Window)
    requires CanRun(EMPTY, acts)
    ensures var s := Run(EMPTY, acts);
            && Recorded(s.db) && TimesIn(HandedOver(s.db.deliveries), w) <= 1
            && TimesMailed(s.outbox, w) == TimesIn(HandedOver(s.db.deliveries), w) + Strays(EMPTY, acts, w)
  {
    assert Recorded(EMPTY.db);
    RunBalances(EMPTY, acts, w);
    var db := Run(EMPTY, acts).db;
    HandedOverOnce(db, w, |db.issues|);
    assert db.deliveries[..|db.issues|] == db.deliveries;
  }
}
