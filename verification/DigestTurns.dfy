/** One recipient's turn over their yards: the unsubscribe link its messages share, and when that link
    works, while other runs and the member's own changes come in between. */
module DigestTurns {
  import opened Wrappers
  import opened Text
  import opened DigestStore
  import opened Digesting
  import opened DigestSend

  datatype Report = Report(sent: nat, failed: nat, skipped: nat, crashed: nat)
  {
    function Note(o: Outcome): Report {
      match o
      case Sent => this.(sent := sent + 1)
      case Failed => this.(failed := failed + 1)
      case Skipped => this.(skipped := skipped + 1)
      case Crashed => this.(crashed := crashed + 1)
    }
  }

  /** What happens during a turn: its next yard, or something else between two of them - the lock is
      given up after each. */
  datatype Moment = Yard(call: Call) | Meanwhile(act: Act)

  /** The turn so far: the report, the token in play, the state, and whether anybody else has replaced the
      member's digest since the token was drawn (or since the turn began). Of the mail handed over, `linked`
      carries the token in play, `unlinked` a token whose own send was rolled back; `elsewhere` is what
      others handed over meanwhile. */
  datatype Turn = Turn(
    report: Report, unsubscribeRaw: Option<nat>, state: State, replaced: bool,
    linked: seq<Mail>, unlinked: seq<Mail>, elsewhere: seq<Mail>)

  /** The acts that replace a member's unsubscribe digest: enrolling or re-pointing, a revocation or a
      restore, and another run's first send to them. Changing the cadence of a confirmed address is not one. */
  predicate Replaces(s: State, a: Act, m: MemberId) {
    match a
    case Subscribe(n, address, _, _, _) =>
      n == m && !(m in s.db.subscriptions && s.db.subscriptions[m].address == address
                  && s.db.subscriptions[m].confirmedAt.Some?)
    case Void(n) => n == m
    case Send(c) => c.member == m && c.unsubscribeRaw.None? && SendAfter(s, c).outcome == Sent
    case _ => false
  }

  function AfterYard(t: Turn, call: Call): Turn {
    var r := SendAfter(t.state, call.(unsubscribeRaw := t.unsubscribeRaw));
    var mail, keeps := NewMail(t.state, r.state), r.outcome == Sent || t.unsubscribeRaw.Some?;
    Turn(t.report.Note(r.outcome), r.unsubscribeRaw, r.state,
         t.replaced && !(r.outcome == Sent && t.unsubscribeRaw.None?),
         if keeps then t.linked + mail else t.linked, if keeps then t.unlinked else t.unlinked + mail,
         t.elsewhere)
  }

  ghost function AfterMeanwhile(t: Turn, m: MemberId, a: Act): Turn {
    t.(state := After(t.state, a), replaced := t.replaced || Replaces(t.state, a, m),
       elsewhere := t.elsewhere + NewMail(t.state, After(t.state, a)))
  }

  /** One recipient's loop over their yards. A crash leaves the token in play as it was. */
  ghost function TurnAfter(s: State, m: MemberId, moments: seq<Moment>): Turn
    decreases |moments|
  {
    if moments == [] then Turn(Report(0, 0, 0, 0), None, s, false, [], [], [])
    else
      var t := TurnAfter(s, m, moments[..|moments| - 1]);
      match moments[|moments| - 1]
      case Yard(call) => AfterYard(t, call)
      case Meanwhile(a) => AfterMeanwhile(t, m, a)
  }

  /** The yards are this member's, and what happens meanwhile can. */
  ghost predicate CanTurn(s: State, m: MemberId, moments: seq<Moment>)
    decreases |moments|
  {
    moments == []
    || (CanTurn(s, m, moments[..|moments| - 1])
        && match moments[|moments| - 1]
           case Yard(call) => call.member == m
           case Meanwhile(a) => CanHappen(TurnAfter(s, m, moments[..|moments| - 1]).state, a))
  }

  // ----- A dead token stays dead, and a replaced one is dead -----

  /** No subscription holds this token, and none ever will: it was drawn before. */
  ghost predicate NeverWorks(s: State, raw: nat) {
    raw < s.nextRaw && forall m | m in s.db.subscriptions :: s.db.subscriptions[m].unsubscribeHash != HashOf(raw)
  }

  /** What any act does to any member's unsubscribe digest: nothing, unless it replaces it, and then no
      value drawn before is stored. */
  lemma ReplacesExactly(s: State, a: Act, m: MemberId, raw: nat)
    requires raw < s.nextRaw
    ensures var t := After(s, a);
            && s.nextRaw <= t.nextRaw
            && (m in s.db.subscriptions ==> m in t.db.subscriptions)
            && (m in s.db.subscriptions && !Replaces(s, a, m) ==>
                  t.db.subscriptions[m].unsubscribeHash == s.db.subscriptions[m].unsubscribeHash)
            && (m in t.db.subscriptions && (m !in s.db.subscriptions || Replaces(s, a, m)) ==>
                  t.db.subscriptions[m].unsubscribeHash != HashOf(raw))
  {
    if a.Send? {
      SendEffects(s, a.call);
    }
  }

  lemma DeadStaysDead(s: State, a: Act, raw: nat)
    requires NeverWorks(s, raw)
    ensures NeverWorks(After(s, a), raw)
  {
    forall m | m in After(s, a).db.subscriptions
      ensures After(s, a).db.subscriptions[m].unsubscribeHash != HashOf(raw)
    {
      ReplacesExactly(s, a, m, raw);
    }
    ReplacesExactly(s, a, 0, raw);
  }

  lemma ReplacedIsDead(s: State, a: Act, m: MemberId, raw: nat)
    requires TokensInv(s) && raw < s.nextRaw && m in s.db.subscriptions
    requires s.db.subscriptions[m].unsubscribeHash == HashOf(raw) && Replaces(s, a, m)
    ensures NeverWorks(After(s, a), raw)
  {
    forall n | n in After(s, a).db.subscriptions
      ensures After(s, a).db.subscriptions[n].unsubscribeHash != HashOf(raw)
    {
      ReplacesExactly(s, a, n, raw);
    }
    ReplacesExactly(s, a, m, raw);
  }

  /** The token of a send that was rolled back: stored nowhere. */
  lemma RolledBackTokenIsDead(s: State, c: Call)
    requires Inv(s) && c.unsubscribeRaw.None? && SendAfter(s, c).outcome != Sent
    requires NewMail(s, SendAfter(s, c).state) != []
    ensures NeverWorks(SendAfter(s, c).state, LinkToken(s, c))
  {
    SendEffects(s, c);
    SendHandsOver(s, c);
    assert forall m | m in s.db.subscriptions :: FreshIn(s, s.db.subscriptions[m].unsubscribeHash);
  }

  lemma ActsOnlyAddMail(s: State, a: Act)
    ensures After(s, a).outbox == s.outbox + NewMail(s, After(s, a))
  {
    if a.Send? {
      SendHandsOver(s, a.call);
    }
  }

  // ----- What every moment keeps -----

  /** No token is in play and nothing was sent; or the stored digest is the hash of the token in play,
      unless somebody else replaced it, and then that token is dead. */
  ghost predicate TokenInPlay(before: Hash, m: MemberId, t: Turn) {
    && m in t.state.db.subscriptions
    && (t.unsubscribeRaw.None? ==>
          t.report.sent == 0 && t.linked == []
          && (!t.replaced ==> t.state.db.subscriptions[m].unsubscribeHash == before))
    && (t.unsubscribeRaw.Some? ==>
          && t.report.sent > 0 && t.unsubscribeRaw.value < t.state.nextRaw
          && if t.replaced then NeverWorks(t.state, t.unsubscribeRaw.value)
             else t.state.db.subscriptions[m].unsubscribeHash == HashOf(t.unsubscribeRaw.value))
  }

  /** All mail of the turn carries the token in play, except what yards that failed or crashed may have
      handed over under a token of their own. */
  ghost predicate MailSplit(m: MemberId, t: Turn) {
    && (forall mail | mail in t.linked ::
          mail.Content? && mail.member == m && t.unsubscribeRaw == Some(mail.unsubscribeRaw))
    && (forall mail | mail in t.unlinked ::
          mail.Content? && mail.member == m && NeverWorks(t.state, mail.unsubscribeRaw))
    && t.report.sent <= |t.linked| && |t.unlinked| <= t.report.failed + t.report.crashed
  }

  ghost predicate OneLink(s: State, m: MemberId, t: Turn) {
    && Inv(t.state) && m in s.db.subscriptions
    && TokenInPlay(s.db.subscriptions[m].unsubscribeHash, m, t) && MailSplit(m, t)
    && multiset(t.state.outbox)
       == multiset(s.outbox) + multiset(t.linked) + multiset(t.unlinked) + multiset(t.elsewhere)
  }

  lemma OneMoreYardKeepsTheToken(before: Hash, m: MemberId, t: Turn, call: Call)
    requires TokenInPlay(before, m, t) && call.member == m
    ensures TokenInPlay(before, m, AfterYard(t, call))
  {
    var c := call.(unsubscribeRaw := t.unsubscribeRaw);
    SendEffects(t.state, c);
    SendHandsOver(t.state, c);
    if t.unsubscribeRaw.Some? && t.replaced {
      DeadStaysDead(t.state, Send(c), t.unsubscribeRaw.value);
    }
  }

  lemma OneMoreYardSplitsTheMail(before: Hash, m: MemberId, t: Turn, call: Call)
    requires Inv(t.state) && TokenInPlay(before, m, t) && MailSplit(m, t) && call.member == m
    ensures MailSplit(m, AfterYard(t, call))
  {
    var c := call.(unsubscribeRaw := t.unsubscribeRaw);
    var r := SendAfter(t.state, c);
    SendEffects(t.state, c);
    SendHandsOver(t.state, c);
    forall mail | mail in t.unlinked ensures NeverWorks(r.state, mail.unsubscribeRaw) {
      DeadStaysDead(t.state, Send(c), mail.unsubscribeRaw);
    }
    if r.outcome != Sent && t.unsubscribeRaw.None? && NewMail(t.state, r.state) != [] {
      RolledBackTokenIsDead(t.state, c);
    }
  }

  lemma OneMoreYardKeepsOneLink(s: State, m: MemberId, t: Turn, call: Call)
    requires OneLink(s, m, t) && call.member == m
    ensures OneLink(s, m, AfterYard(t, call))
  {
    var c := call.(unsubscribeRaw := t.unsubscribeRaw);
    SendKeepsInv(t.state, c);
    SendHandsOver(t.state, c);
    OneMoreYardKeepsTheToken(s.db.subscriptions[m].unsubscribeHash, m, t, call);
    OneMoreYardSplitsTheMail(s.db.subscriptions[m].unsubscribeHash, m, t, call);
  }

  lemma MeanwhileKeepsTheToken(before: Hash, m: MemberId, t: Turn, a: Act)
    requires Inv(t.state) && TokenInPlay(before, m, t)
    ensures TokenInPlay(before, m, AfterMeanwhile(t, m, a))
  {
    if t.unsubscribeRaw.Some? {
      var raw := t.unsubscribeRaw.value;
      ReplacesExactly(t.state, a, m, raw);
      if t.replaced {
        DeadStaysDead(t.state, a, raw);
      } else if Replaces(t.state, a, m) {
        ReplacedIsDead(t.state, a, m, raw);
      }
    } else {
      DigestAndRow(t.state, a, m);
    }
  }

  lemma DigestAndRow(s: State, a: Act, m: MemberId)
    requires m in s.db.subscriptions
    ensures m in After(s, a).db.subscriptions
    ensures !Replaces(s, a, m) ==>
              After(s, a).db.subscriptions[m].unsubscribeHash == s.db.subscriptions[m].unsubscribeHash
  {
    if a.Send? {
      SendEffects(s, a.call);
    }
  }

  lemma MeanwhileKeepsOneLink(s: State, m: MemberId, t: Turn, a: Act)
    requires OneLink(s, m, t) && CanHappen(t.state, a)
    ensures OneLink(s, m, AfterMeanwhile(t, m, a))
  {
    StepKeepsInv(t.state, a);
    ActsOnlyAddMail(t.state, a);
    MeanwhileKeepsTheToken(s.db.subscriptions[m].unsubscribeHash, m, t, a);
    forall mail | mail in t.unlinked ensures NeverWorks(After(t.state, a), mail.unsubscribeRaw) {
      DeadStaysDead(t.state, a, mail.unsubscribeRaw);
    }
  }

  lemma {:induction false} TurnKeepsOneLink(s: State, m: MemberId, moments: seq<Moment>)
    requires Inv(s) && m in s.db.subscriptions && CanTurn(s, m, moments)
    ensures OneLink(s, m, TurnAfter(s, m, moments))
    decreases |moments|
  {
    if moments != [] {
      var rest := moments[..|moments| - 1];
      TurnKeepsOneLink(s, m, rest);
      match moments[|moments| - 1]
      case Yard(call) => OneMoreYardKeepsOneLink(s, m, TurnAfter(s, m, rest), call);
      case Meanwhile(a) => MeanwhileKeepsOneLink(s, m, TurnAfter(s, m, rest), a);
    }
  }

  // ----- Whose links work -----

  /** After a turn, whatever came in between. What it handed over is exactly `linked` and `unlinked`. The
      first, which includes all that was sent, carries one link: it finds this member if and only if nobody
      else has replaced the member's digest since that link's token was drawn, and nobody otherwise. The
      second, at most one message for each yard that failed or crashed, carries links that find nobody. */
  lemma TurnLinksWorkExactly(s: State, m: MemberId, moments: seq<Moment>, mail: Mail)
    requires Inv(s) && m in s.db.subscriptions && CanTurn(s, m, moments)
    ensures var t := TurnAfter(s, m, moments);
            && multiset(t.state.outbox)
               == multiset(s.outbox) + multiset(t.linked) + multiset(t.unlinked) + multiset(t.elsewhere)
            && t.report.sent <= |t.linked| && |t.unlinked| <= t.report.failed + t.report.crashed
            && (mail in t.linked ==>
                  mail.Content? && UnsubscribeHolder(t.state, mail.unsubscribeRaw)
                                   == if t.replaced then None else Some(m))
            && (mail in t.unlinked ==>
                  mail.Content? && UnsubscribeHolder(t.state, mail.unsubscribeRaw).None?)
  {
    TurnKeepsOneLink(s, m, moments);
    var t := TurnAfter(s, m, moments);
    if mail in t.linked && !t.replaced {
      UnsubscribeHolderIsUnique(t.state, mail.unsubscribeRaw, m);
    }
  }

  /** Every yard of a turn is counted once, under what became of it. */
  lemma EachYardCountsOnce(t: Turn, call: Call)
    ensures var was, now := t.report, AfterYard(t, call).report;
            var outcome := SendAfter(t.state, call.(unsubscribeRaw := t.unsubscribeRaw)).outcome;
            && now.sent == was.sent + (if outcome == Sent then 1 else 0)
            && now.failed == was.failed + (if outcome == Failed then 1 else 0)
            && now.skipped == was.skipped + (if outcome == Skipped then 1 else 0)
            && now.crashed == was.crashed + (if outcome == Crashed then 1 else 0)
  {
  }

  /** A turn with nothing in between. */
  function Yards(calls: seq<Call>): (moments: seq<Moment>)
    ensures |moments| == |calls|
  {
    seq(|calls|, i requires 0 <= i < |calls| => Yard(calls[i]))
  }

  lemma {:induction false} NobodyMeanwhile(s: State, m: MemberId, calls: seq<Call>)
    requires forall c | c in calls :: c.member == m
    ensures var t := TurnAfter(s, m, Yards(calls));
            && CanTurn(s, m, Yards(calls)) && !t.replaced && t.elsewhere == []
            && (t.report.sent == 0 ==> t.unsubscribeRaw.None? && t.state.db.subscriptions == s.db.subscriptions)
    decreases |calls|
  {
    if calls != [] {
      var rest, last := calls[..|calls| - 1], calls[|calls| - 1];
      assert Yards(calls)[..|calls| - 1] == Yards(rest);
      assert last in calls && forall c | c in rest :: c in calls;
      NobodyMeanwhile(s, m, rest);
      var t := TurnAfter(s, m, Yards(rest));
      SendEffects(t.state, last.(unsubscribeRaw := t.unsubscribeRaw));
    }
  }

  /** The undisturbed turn: the link all its sent mail shares finds this member, and a turn that sends
      nothing leaves the subscription, old link included, as it was. */
  lemma TurnSharesOneWorkingLink(s: State, m: MemberId, calls: seq<Call>, mail: Mail)
    requires Inv(s) && m in s.db.subscriptions && forall c | c in calls :: c.member == m
    ensures var t := TurnAfter(s, m, Yards(calls));
            && multiset(t.state.outbox) == multiset(s.outbox) + multiset(t.linked) + multiset(t.unlinked)
            && t.report.sent <= |t.linked| && |t.unlinked| <= t.report.failed + t.report.crashed
            && (mail in t.linked ==>
                  mail.Content? && UnsubscribeHolder(t.state, mail.unsubscribeRaw) == Some(m))
            && (mail in t.unlinked ==>
                  mail.Content? && UnsubscribeHolder(t.state, mail.unsubscribeRaw).None?)
            && (t.report.sent == 0 ==> t.state.db.subscriptions == s.db.subscriptions)
  {
    NobodyMeanwhile(s, m, calls);
    TurnLinksWorkExactly(s, m, Yards(calls), mail);
  }

  lemma OneMoreOfTheYards(s: State, m: MemberId, calls: seq<Call>, k: nat)
    requires k < |calls|
    ensures TurnAfter(s, m, Yards(calls[..k + 1])) == AfterYard(TurnAfter(s, m, Yards(calls[..k])), calls[k])
  {
    assert Yards(calls[..k + 1])[..k] == Yards(calls[..k]);
  }

  /** The loop itself, one `SendOne` per yard, counting as it goes. */
  method SendTurn(store: Store, m: MemberId, calls: seq<Call>) returns (report: Report, unsubscribeRaw: Option<nat>)
    requires Inv(store.s)
    modifies store
    ensures var t := TurnAfter(old(store.s), m, Yards(calls));
            t.report == report && t.unsubscribeRaw == unsubscribeRaw && t.state == store.s
  {
    report, unsubscribeRaw := Report(0, 0, 0, 0), None;
    ghost var t := TurnAfter(store.s, m, []);
    for k := 0 to |calls|
      invariant Inv(store.s) && t == TurnAfter(old(store.s), m, Yards(calls[..k]))
      invariant t.report == report && t.unsubscribeRaw == unsubscribeRaw && t.state == store.s
    {
      var outcome, raw := SendYard(store, calls[k].(unsubscribeRaw := unsubscribeRaw));
      OneMoreOfTheYards(old(store.s), m, calls, k);
      t := AfterYard(t, calls[k]);
      if outcome != Crashed { unsubscribeRaw := raw; }
      report := report.Note(outcome);
    }
    assert calls[..|calls|] == calls;
  }

  method SendYard(store: Store, c: Call) returns (outcome: Outcome, unsubscribeRaw: Option<nat>)
    requires Inv(store.s)
    modifies store
    ensures Inv(store.s) && SendAfter(old(store.s), c) == SendResult(outcome, unsubscribeRaw, store.s)
    ensures outcome == Crashed ==> unsubscribeRaw == c.unsubscribeRaw
  {
    SendKeepsInv(store.s, c);
    outcome, unsubscribeRaw := SendOne(store, c);
  }

  /** Whether the unsubscribe link in a message handed over works right afterwards. With a token in play:
      exactly when the stored digest is still that token's. Without: exactly when the send returned as sent. */
  lemma HandedOverLinksWorkExactly(s: State, c: Call)
    requires Inv(s) && NewMail(s, SendAfter(s, c).state) != []
    ensures var r := SendAfter(s, c);
            && r.state.outbox == s.outbox + [MessageFor(s, c)]
            && (UnsubscribeHolder(r.state, MessageFor(s, c).unsubscribeRaw) == Some(c.member) <==>
                if c.unsubscribeRaw.Some? then
                  s.db.subscriptions[c.member].unsubscribeHash == HashOf(c.unsubscribeRaw.value)
                else r.outcome == Sent)
  {
    var r := SendAfter(s, c);
    SendKeepsInv(s, c);
    SendEffects(s, c);
    SendHandsOver(s, c);
    if r.state.db.subscriptions[c.member].unsubscribeHash == HashOf(LinkToken(s, c)) {
      UnsubscribeHolderIsUnique(r.state, LinkToken(s, c), c.member);
    }
    if c.unsubscribeRaw.None? && r.outcome != Sent {
      RolledBackTokenIsDead(s, c);
    }
  }

  // ----- The inputs on which a link is dead -----

  /** A send to one yard leaves the others as they were to send to. */
  lemma OtherYardsStayOpen(s: State, c: Call, d: Call)
    requires SendAfter(s, c).outcome == Sent && MaySend(s, d) && d.yard != c.yard
    ensures MaySend(SendAfter(s, c).state, d)
    ensures IssueFor(SendAfter(s, c).state, d) == IssueFor(s, d)
  {
    SendEffects(s, c);
    SendMovesOneWindow(s, c, d.member, d.yard);
  }

  predicate WouldBeSent(s: State, c: Call) {
    MaySend(s, c) && c.fate == Relayed && WindowPosts(c.secondLook, IssueFor(s, c).start, c.windowEnd) != {}
  }

  /** A yard that would be sent is, and leaves the others to send to. */
  lemma SentYard(t: Turn, c: Call)
    requires WouldBeSent(t.state, c)
    ensures var next := AfterYard(t, c);
            && next.report == t.report.Note(Sent) && next.unsubscribeRaw.Some?
            && next.replaced == (t.replaced && t.unsubscribeRaw.Some?) && |next.linked| == |t.linked| + 1
    ensures forall d | WouldBeSent(t.state, d) && d.yard != c.yard :: WouldBeSent(AfterYard(t, c).state, d)
  {
    var mine := c.(unsubscribeRaw := t.unsubscribeRaw);
    SendHandsOver(t.state, mine);
    SendEffects(t.state, mine);
    forall d | WouldBeSent(t.state, d) && d.yard != c.yard ensures WouldBeSent(AfterYard(t, c).state, d) {
      OtherYardsStayOpen(t.state, mine, d);
    }
  }

  /** Another run's send in between does the same, and replaces the digest. */
  lemma SentMeanwhile(t: Turn, m: MemberId, c: Call)
    requires WouldBeSent(t.state, c) && c.unsubscribeRaw.None? && c.member == m
    ensures var next := AfterMeanwhile(t, m, Send(c));
            && SendAfter(t.state, c).outcome == Sent
            && next.report == t.report && next.unsubscribeRaw == t.unsubscribeRaw
            && next.replaced && next.linked == t.linked
    ensures forall d | WouldBeSent(t.state, d) && d.yard != c.yard ::
              WouldBeSent(AfterMeanwhile(t, m, Send(c)).state, d)
  {
    forall d | WouldBeSent(t.state, d) && d.yard != c.yard
      ensures WouldBeSent(AfterMeanwhile(t, m, Send(c)).state, d)
    {
      OtherYardsStayOpen(t.state, c, d);
    }
  }

  lemma TurnOfThree(s: State, m: MemberId, c1: Call, a: Act, c3: Call)
    ensures var one := AfterYard(Turn(Report(0, 0, 0, 0), None, s, false, [], [], []), c1);
            && TurnAfter(s, m, [Yard(c1)]) == one
            && TurnAfter(s, m, [Yard(c1), Meanwhile(a), Yard(c3)]) == AfterYard(AfterMeanwhile(one, m, a), c3)
            && (c1.member == c3.member == m && CanHappen(one.state, a) ==>
                  CanTurn(s, m, [Yard(c1), Meanwhile(a), Yard(c3)]))
  {
    var moments := [Yard(c1), Meanwhile(a), Yard(c3)];
    assert moments[..2] == [Yard(c1), Meanwhile(a)] && moments[..2][..1] == [Yard(c1)] && [Yard(c1)][..0] == [];
    assert CanTurn(s, m, []);
    assert c1.member == m ==> CanTurn(s, m, [Yard(c1)]);
  }

  /** Two overlapping runs: one sends a member's first yard, the other their second, the first their third.
      All three sends return as sent, and the link in both of the first run's messages finds nobody. */
  lemma OverlappingRunsKillTheLink(s: State, m: MemberId, c1: Call, c2: Call, c3: Call)
    requires Inv(s) && c1.member == c2.member == c3.member == m && c2.unsubscribeRaw.None?
    requires c1.yard != c2.yard && c2.yard != c3.yard && c1.yard != c3.yard
    requires WouldBeSent(s, c1) && WouldBeSent(s, c2) && WouldBeSent(s, c3)
    ensures var t := TurnAfter(s, m, [Yard(c1), Meanwhile(Send(c2)), Yard(c3)]);
            && SendAfter(TurnAfter(s, m, [Yard(c1)]).state, c2).outcome == Sent
            && t.report == Report(2, 0, 0, 0) && |t.linked| == 2
            && forall mail | mail in t.linked ::
                 mail.Content? && UnsubscribeHolder(t.state, mail.unsubscribeRaw).None?
  {
    var moments := [Yard(c1), Meanwhile(Send(c2)), Yard(c3)];
    TurnOfThree(s, m, c1, Send(c2), c3);
    var none := Turn(Report(0, 0, 0, 0), None, s, false, [], [], []);
    SentYard(none, c1);
    var one := AfterYard(none, c1);
    SentMeanwhile(one, m, c2);
    SentYard(AfterMeanwhile(one, m, Send(c2)), c3);
    var t := TurnAfter(s, m, moments);
    forall mail | mail in t.linked ensures mail.Content? && UnsubscribeHolder(t.state, mail.unsubscribeRaw).None? {
      TurnLinksWorkExactly(s, m, moments, mail);
    }
  }

  /** A subscriber with nothing sent yet, and one post that every yard shows. */
  lemma SomebodyToSendTo(fate: Fate, yard: YardId) returns (s: State, c: Call)
    ensures var sub := Subscription("a@b", "weekly", true, Some(0), Empty, Empty);
            s == EMPTY.(db := EMPTY.db.(subscriptions := map[7 := sub]), proven := {(7, Lower("a@b"))})
    ensures c == Call(7, yard, true, 10, {Post(1, 5, false)}, {Post(1, 5, false)}, None, fate)
    ensures Inv(s) && MaySend(s, c) && WindowPosts(c.secondLook, IssueFor(s, c).start, 10) != {}
  {
    var post := Post(1, 5, false);
    var sub := Subscription("a@b", "weekly", true, Some(0), Empty, Empty);
    s := EMPTY.(db := EMPTY.db.(subscriptions := map[7 := sub]), proven := {(7, Lower("a@b"))});
    c := Call(7, yard, true, 10, {post}, {post}, None, fate);
    assert IssuesOf(s.db.issues, 7, yard) == [];
    assert post in WindowPosts({post}, 0, 10);
  }

  lemma OverlappingRunsHappen() returns (s: State, c1: Call, c2: Call, c3: Call)
    ensures Inv(s) && c1.member == c2.member == c3.member && c2.unsubscribeRaw.None?
    ensures c1.yard != c2.yard && c2.yard != c3.yard && c1.yard != c3.yard
    ensures WouldBeSent(s, c1) && WouldBeSent(s, c2) && WouldBeSent(s, c3)
  {
    s, c1 := SomebodyToSendTo(Relayed, 1);
    s, c2 := SomebodyToSendTo(Relayed, 2);
    s, c3 := SomebodyToSendTo(Relayed, 3);
  }

  /** The two ways to a message with a dead link: the process dies after handing it over, or the relay
      takes it and the connection then fails. Either way the rotation its token came from is undone. */
  lemma UnsentMailMayCarryADeadLink(fate: Fate) returns (s: State, c: Call)
    requires fate == CrashAfter || fate == TakenThenError
    ensures Inv(s) && c.fate == fate && SendAfter(s, c).outcome == if fate == CrashAfter then Crashed else Failed
    ensures var t := SendAfter(s, c).state;
            && |t.outbox| == 1 && t.outbox[0].Content?
            && UnsubscribeHolder(t, t.outbox[0].unsubscribeRaw).None?
  {
    s, c := SomebodyToSendTo(fate, 3);
    SendHandsOver(s, c);
    RolledBackTokenIsDead(s, c);
  }
}
