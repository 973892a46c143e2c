/** What the Email Updates machine promises its members, said of rows, addresses and messages alone: who is
    mailed and who is not, whose proof a message rests on, and what each settings act leaves alone. */
module DigestLaws {
  import opened Wrappers
  import Text
  import opened DigestStore
  import opened Digesting
  import opened DigestSend

  // ----- Who is mailed -----

  /** Where a yard's next window starts: at the latest end of its issues, or at the confirmation. */
  lemma AnchorIsTheLatestEnd(s: State, m: MemberId, y: YardId)
    requires WindowsInv(s) && m in s.db.subscriptions && s.db.subscriptions[m].confirmedAt.Some?
    ensures var start := Anchor(s.db, m, y);
            && (forall i | i in s.db.issues && i.member == m && i.yard == y :: i.end <= start)
            && if exists i :: i in s.db.issues && i.member == m && i.yard == y
               then exists i :: i in s.db.issues && i.member == m && i.yard == y && i.end == start
               else s.db.subscriptions[m].confirmedAt == Some(start)
  {
    var mine := IssuesOf(s.db.issues, m, y);
    forall i | i in s.db.issues && i.member == m && i.yard == y
      ensures i in mine && i.end <= Anchor(s.db, m, y)
    {
      InIssuesOf(s.db.issues, i);
      var k: nat :| k < |mine| && mine[k] == i;
      if k < |mine| - 1 {
        ChainIsOrdered(mine, k, |mine| - 1);
      }
    }
    if mine != [] {
      OnlyIssuesOf(s.db.issues, m, y, mine[|mine| - 1]);
    }
  }

  /** The liveness re-check: somebody who switched off, or never confirmed, or is no longer in the yard, is
      skipped, and nothing at all changes. */
  lemma NotLiveIsSkipped(s: State, c: Call)
    requires c.member in s.db.subscriptions
    requires var sub := s.db.subscriptions[c.member]; !sub.enabled || sub.confirmedAt.None? || !c.inYard
    ensures SendAfter(s, c) == SendResult(Skipped, c.unsubscribeRaw, s)
  {
  }

  /** Some written post of the look falls in the window. */
  ghost predicate HasNews(look: set<Post>, start: Time, end: Time) {
    exists p :: p in look && !p.isArrival && start <= p.createdAt < end
  }

  /** A send is sent exactly when its member has switched on, confirmed and is in the yard, the window is not
      empty, there is news at both looks, and the relay takes it. Then one message has left, to the
      subscribed address, and the window stands. */
  lemma SentExactly(s: State, c: Call)
    ensures var r := SendAfter(s, c);
            r.outcome == Sent <==>
            && c.member in s.db.subscriptions && s.db.subscriptions[c.member].enabled
            && s.db.subscriptions[c.member].confirmedAt.Some? && c.inYard
            && var start := Anchor(s.db, c.member, c.yard);
               start < c.windowEnd && HasNews(c.look, start, c.windowEnd) && HasNews(c.secondLook, start, c.windowEnd)
               && c.fate == Relayed
    ensures var r := SendAfter(s, c);
            r.outcome == Sent ==>
              && c.member in s.db.subscriptions && s.db.subscriptions[c.member].confirmedAt.Some?
              && r.unsubscribeRaw.Some?
              && var issue := Issue(c.member, c.yard, Anchor(s.db, c.member, c.yard), c.windowEnd);
                 && r.state.db.issues == s.db.issues + [issue]
                 && r.state.outbox == s.outbox + [Content(s.db.subscriptions[c.member].address, c.member, issue,
                                                          r.unsubscribeRaw.value)]
  {
    if c.member in s.db.subscriptions && s.db.subscriptions[c.member].confirmedAt.Some? {
      var start := Anchor(s.db, c.member, c.yard);
      NewsIsPosts(c.look, start, c.windowEnd);
      NewsIsPosts(c.secondLook, start, c.windowEnd);
    }
  }

  lemma NewsIsPosts(look: set<Post>, start: Time, end: Time)
    ensures WindowPosts(look, start, end) != {} <==> HasNews(look, start, end)
  {
    if p :| p in look && !p.isArrival && start <= p.createdAt < end {
      assert p in WindowPosts(look, start, end);
    }
  }

  /** Switching off works: by the settings page, or by the link of a message. */
  lemma SwitchingOff(s: State, m: MemberId, raw: nat)
    requires TokensInv(s) && m in s.db.subscriptions
    ensures !After(s, Switch(m, false)).db.subscriptions[m].enabled
    ensures s.db.subscriptions[m].unsubscribeHash == HashOf(raw) ==>
              !After(s, Unsubscribe(raw)).db.subscriptions[m].enabled
  {
    if s.db.subscriptions[m].unsubscribeHash == HashOf(raw) {
      UnsubscribeHolderIsUnique(s, raw, m);
    }
  }

  ghost predicate IsOff(s: State, m: MemberId) {
    m in s.db.subscriptions && !s.db.subscriptions[m].enabled
  }

  /** No content for this member among these messages. */
  ghost predicate NoContentFor(mail: seq<Mail>, m: MemberId) {
    forall i | 0 <= i < |mail| && mail[i].Content? :: mail[i].member != m
  }

  lemma OffStaysOff(s: State, a: Act, m: MemberId)
    requires IsOff(s, m)
    requires !(a.Subscribe? && a.m == m) && !(a.Switch? && a.m == m && a.enabled)
    ensures IsOff(After(s, a), m)
    ensures s.outbox <= After(s, a).outbox && NoContentFor(After(s, a).outbox[|s.outbox|..], m)
  {
    if a.Send? {
      SendEffects(s, a.call);
      SendHandsOver(s, a.call);
      if a.call.member == m {
        NotLiveOrNobody(s, a.call);
      }
    }
  }

  lemma NotLiveOrNobody(s: State, c: Call)
    requires IsOff(s, c.member)
    ensures SendAfter(s, c).state == s
  {
    NotLiveIsSkipped(s, c);
  }

  /** Once off, no content goes to them over any run, whoever sends and crashes meanwhile, until they
      subscribe or switch on again. */
  lemma {:induction false} SilentWhileOff(s: State, acts: seq<Act>, m: MemberId)
    requires IsOff(s, m)
    requires forall a | a in acts :: !(a.Subscribe? && a.m == m) && !(a.Switch? && a.m == m && a.enabled)
    ensures IsOff(Run(s, acts), m)
    ensures s.outbox <= Run(s, acts).outbox && NoContentFor(Run(s, acts).outbox[|s.outbox|..], m)
    decreases |acts|
  {
    if acts != [] {
      var next := After(s, acts[0]);
      assert acts[0] in acts && forall a | a in acts[1..] :: a in acts;
      OffStaysOff(s, acts[0], m);
      SilentWhileOff(next, acts[1..], m);
      var end := Run(next, acts[1..]).outbox;
      forall i | |s.outbox| <= i < |end| && end[i].Content? ensures end[i].member != m {
        if i < |next.outbox| {
          assert end[i] == next.outbox[|s.outbox|..][i - |s.outbox|];
        } else {
          assert end[i] == end[|next.outbox|..][i - |next.outbox|];
        }
      }
    }
  }

  // ----- Whose proof a message rests on -----

  /** This act shows that this member controls this mailbox: they opened a confirmation mailed there for
      them, or confirmed their account at it. */
  ghost predicate Proves(s: State, a: Act, m: MemberId, address: string) {
    || (a.Confirm? && exists mail :: mail in s.outbox && mail.Confirmation? && mail.raw == a.raw
                                     && mail.member == m && Text.SameMailbox(mail.to, address))
    || (a.ConfirmAccount? && a.m == m && m in s.signIn && Text.SameMailbox(s.signIn[m].email, address))
  }

  ghost predicate EverProved(s: State, acts: seq<Act>, m: MemberId, address: string)
    decreases |acts|
  {
    acts != [] && (Proves(s, acts[0], m, address) || EverProved(After(s, acts[0]), acts[1..], m, address))
  }

  lemma OneActProves(s: State, a: Act, m: MemberId, address: string)
    requires (m, Text.Lower(address)) in After(s, a).proven && (m, Text.Lower(address)) !in s.proven
    ensures Proves(s, a, m, address)
  {
    if a.Confirm? {
      var mail :| mail in s.outbox && mail.Confirmation? && mail.raw == a.raw
                  && mail.member == m && Text.Lower(mail.to) == Text.Lower(address);
      Text.LowerExactly(mail.to, address);
    } else if a.ConfirmAccount? {
      Text.LowerExactly(s.signIn[m].email, address);
    }
  }

  lemma {:induction false} ProvenWasProved(s: State, acts: seq<Act>, m: MemberId, address: string)
    requires (m, Text.Lower(address)) in Run(s, acts).proven && (m, Text.Lower(address)) !in s.proven
    ensures EverProved(s, acts, m, address)
    decreases |acts|
  {
    if acts != [] {
      if (m, Text.Lower(address)) in After(s, acts[0]).proven {
        OneActProves(s, acts[0], m, address);
      } else {
        ProvenWasProved(After(s, acts[0]), acts[1..], m, address);
      }
    }
  }

  /** Over any run from the start: whoever was mailed content had shown, by an act of that run, control of
      the very mailbox it went to - the same letters, whatever their case - and so had everybody whose
      subscription is confirmed. (Take the run up to the sending for: before it was sent.) */
  lemma ContentFollowsProof(acts: seq<Act>, mail: Mail, m: MemberId)
    requires CanRun(EMPTY, acts)
    ensures var s := Run(EMPTY, acts);
            && (mail in s.outbox && mail.Content? ==> EverProved(EMPTY, acts, mail.member, mail.to))
            && (m in s.db.subscriptions && s.db.subscriptions[m].confirmedAt.Some? ==>
                  EverProved(EMPTY, acts, m, s.db.subscriptions[m].address))
  {
    EveryRunKeepsInv(EMPTY, acts);
    var s := Run(EMPTY, acts);
    if mail in s.outbox && mail.Content? {
      ProvenWasProved(EMPTY, acts, mail.member, mail.to);
    }
    if m in s.db.subscriptions && s.db.subscriptions[m].confirmedAt.Some? {
      ProvenWasProved(EMPTY, acts, m, s.db.subscriptions[m].address);
    }
  }

  // ----- What each settings act changes -----

  /** Everybody else's subscription, and every issue, token and delivery, is as it was. */
  ghost predicate OnlyRow(s: State, t: State, m: MemberId) {
    && t.db.issues == s.db.issues && t.db.tokens == s.db.tokens && t.db.deliveries == s.db.deliveries
    && (forall n | n != m :: n in t.db.subscriptions <==> n in s.db.subscriptions)
    && (forall n | n != m && n in s.db.subscriptions :: t.db.subscriptions[n] == s.db.subscriptions[n])
  }

  /** The member's primary sign-in address is this mailbox. */
  predicate SignsInAt(s: State, m: MemberId, address: string) {
    m in s.signIn && Text.SameMailbox(s.signIn[m].email, address)
  }

  /** Subscribing. At the address that is already confirmed, only the cadence changes and the switch goes on.
      At the member's own sign-in mailbox nothing is mailed, the address becomes the proven spelling, and it
      is confirmed if the sign-in is verified or that mailbox was confirmed before - never un-confirmed. At
      any other address it starts unconfirmed, and its token was mailed there if the mail went. */
  lemma SubscribedExactly(s: State, m: MemberId, address: string, cadence: string, now: Time, delivered: bool)
    ensures var t := Subscribed(s, m, address, cadence, now, delivered);
            var was := m in s.db.subscriptions && s.db.subscriptions[m].confirmedAt.Some?;
            && OnlyRow(s, t, m) && t.signIn == s.signIn && t.proven == s.proven
            && m in t.db.subscriptions
            && var sub := t.db.subscriptions[m];
               && sub.enabled
               && sub.cadence == (if cadence in {"daily", "weekly", "monthly"} then cadence else "weekly")
               && (was && s.db.subscriptions[m].address == address ==>
                     && t.outbox == s.outbox
                     && sub == s.db.subscriptions[m].(enabled := true, cadence := sub.cadence))
               && (!(was && s.db.subscriptions[m].address == address) && SignsInAt(s, m, address) ==>
                     && t.outbox == s.outbox && sub.address == s.signIn[m].email && sub.confirmHash == Empty
                     && (sub.confirmedAt.Some? <==>
                         s.signIn[m].verified
                         || (was && Text.SameMailbox(s.db.subscriptions[m].address, s.signIn[m].email))))
               && (!(was && s.db.subscriptions[m].address == address) && !SignsInAt(s, m, address) ==>
                     && sub.address == address && sub.confirmedAt.None?
                     && sub.confirmHash == HashOf(s.nextRaw)
                     && t.outbox == s.outbox + (if delivered then [Confirmation(address, m, s.nextRaw)] else []))
  {
    if m in s.signIn {
      Text.LowerExactly(s.signIn[m].email, address);
      if m in s.db.subscriptions {
        Text.LowerExactly(s.db.subscriptions[m].address, s.signIn[m].email);
      }
    }
    SubscribedCadence(cadence);
  }

  lemma SubscribedCadence(cadence: string)
    ensures CadenceOr(cadence) == if cadence in {"daily", "weekly", "monthly"} then cadence else "weekly"
  {
  }

  /** Opening a confirm link confirms its one subscription and burns the link; opening an unknown one
      confirms nothing. */
  lemma ConfirmedExactly(s: State, raw: nat, now: Time, m: MemberId)
    requires TokensInv(s)
    ensures var t := Confirmed(s, raw, now);
            && t.outbox == s.outbox
            && (m in s.db.subscriptions && s.db.subscriptions[m].confirmHash == HashOf(raw) ==>
                  && OnlyRow(s, t, m) && m in t.db.subscriptions
                  && t.db.subscriptions[m]
                     == s.db.subscriptions[m].(confirmedAt := Some(now), confirmHash := Empty))
            && ((forall n | n in s.db.subscriptions :: s.db.subscriptions[n].confirmHash != HashOf(raw)) ==>
                  t.db == s.db)
  {
    if m in s.db.subscriptions && s.db.subscriptions[m].confirmHash == HashOf(raw) {
      ConfirmHolderIsUnique(s, raw, m);
    }
  }

  /** An unsubscribe link switches its one subscription off and does nothing else; the link stays good. */
  lemma UnsubscribedExactly(s: State, raw: nat, m: MemberId)
    requires TokensInv(s)
    ensures var t := Unsubscribed(s, raw);
            && t.outbox == s.outbox
            && (m in s.db.subscriptions && s.db.subscriptions[m].unsubscribeHash == HashOf(raw) ==>
                  && OnlyRow(s, t, m) && m in t.db.subscriptions
                  && t.db.subscriptions[m] == s.db.subscriptions[m].(enabled := false))
            && ((forall n | n in s.db.subscriptions :: s.db.subscriptions[n].unsubscribeHash != HashOf(raw)) ==>
                  t == s)
  {
    if m in s.db.subscriptions && s.db.subscriptions[m].unsubscribeHash == HashOf(raw) {
      UnsubscribeHolderIsUnique(s, raw, m);
    }
  }

  /** The account confirmation starts this member's subscription exactly when it is unconfirmed and at the
      very mailbox just proven, burns its link then, and touches no other address and nobody else. */
  lemma AccountConfirmedExactly(s: State, m: MemberId, now: Time)
    requires m in s.signIn
    ensures var t := AccountConfirmed(s, m, now);
            && OnlyRow(s, t, m) && t.outbox == s.outbox
            && (m in s.db.subscriptions ==>
                  m in t.db.subscriptions && t.db.subscriptions[m] ==
                  if s.db.subscriptions[m].confirmedAt.None? && SignsInAt(s, m, s.db.subscriptions[m].address)
                  then s.db.subscriptions[m].(confirmedAt := Some(now), confirmHash := Empty)
                  else s.db.subscriptions[m])
  {
    if m in s.db.subscriptions {
      Text.LowerExactly(s.db.subscriptions[m].address, s.signIn[m].email);
    }
  }

  /** Voiding kills both links of one member and leaves the preference, the address and the confirmation. */
  lemma VoidedExactly(s: State, m: MemberId)
    ensures var t := Voided(s, m);
            && OnlyRow(s, t, m) && t.outbox == s.outbox
            && (m in s.db.subscriptions ==>
                  && m in t.db.subscriptions
                  && t.db.subscriptions[m] == s.db.subscriptions[m].(confirmHash := Empty, unsubscribeHash := Empty)
                  && forall raw :: UnsubscribeHolder(t, raw) != Some(m) && ConfirmHolder(t, raw) != Some(m))
  {
  }
}
