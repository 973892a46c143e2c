/** The subscription lifecycle: enrol, confirm, unsubscribe, switch, and the account confirmation
    that counts for both. */
module Digesting {
  import opened Wrappers
  import opened Text
  import opened DigestStore

  predicate KnownCadence(c: string) { c == "daily" || c == "weekly" || c == "monthly" }

  function CadenceOr(c: string): string { if KnownCadence(c) then c else "weekly" }

  function WithSubscription(s: State, m: MemberId, sub: Subscription): State {
    s.(db := s.db.(subscriptions := s.db.subscriptions[m := sub]))
  }

  /** `_own_signin_address`: this member's primary sign-in address, if it is the same mailbox. */
  function Own(s: State, m: MemberId, address: string): Option<SignIn> {
    if m in s.signIn && Lower(s.signIn[m].email) == Lower(address) then Some(s.signIn[m]) else None
  }

  /** The address is the member's own sign-in address: the proof is that address's, and nothing is
      mailed. A mailbox this member already confirmed is never un-confirmed. */
  function SubscribedToOwn(s: State, m: MemberId, own: SignIn, cadence: string, now: Time): State {
    var subs := s.db.subscriptions;
    var kept := m in subs && subs[m].confirmedAt.Some? && Lower(subs[m].address) == Lower(own.email);
    var confirmed := if own.verified then Some(now) else if kept then subs[m].confirmedAt else None;
    WithSubscription(s.(nextRaw := s.nextRaw + 1), m,
                     Subscription(own.email, cadence, true, confirmed, Empty, HashOf(s.nextRaw)))
  }

  /** Any other address starts unconfirmed, with a token mailed to it. */
  function Enrolled(s: State, m: MemberId, address: string, cadence: string): State {
    WithSubscription(s.(nextRaw := s.nextRaw + 2), m,
                     Subscription(address, cadence, true, None, HashOf(s.nextRaw), HashOf(s.nextRaw + 1)))
  }

  function Mailed(s: State, mail: Mail): State {
    s.(outbox := s.outbox + [mail])
  }

  /** Enrolling, or re-pointing. `delivered` says whether the confirmation mail, sent after the
      transaction, was handed over. */
  function Subscribed(s: State, m: MemberId, address: string, cadence: string, now: Time, delivered: bool): State {
    var subs := s.db.subscriptions;
    if m in subs && subs[m].address == address && subs[m].confirmedAt.Some? then
      WithSubscription(s, m, subs[m].(cadence := CadenceOr(cadence), enabled := true))
    else if Own(s, m, address).Some? then
      SubscribedToOwn(s, m, Own(s, m, address).value, CadenceOr(cadence), now)
    else if delivered then
      Mailed(Enrolled(s, m, address, CadenceOr(cadence)), Confirmation(address, m, s.nextRaw))
    else
      Enrolled(s, m, address, CadenceOr(cadence))
  }

  /** Who the confirm token `raw` belongs to. */
  ghost function ConfirmHolder(s: State, raw: nat): Option<MemberId> {
    if m :| m in s.db.subscriptions && s.db.subscriptions[m].confirmHash == HashOf(raw) then Some(m) else None
  }

  ghost function UnsubscribeHolder(s: State, raw: nat): Option<MemberId> {
    if m :| m in s.db.subscriptions && s.db.subscriptions[m].unsubscribeHash == HashOf(raw) then Some(m) else None
  }

  /** The mailboxes a message carrying this confirm token went to: presenting it proves those. */
  ghost function ProvenBy(s: State, raw: nat): set<(MemberId, string)> {
    set mail | mail in s.outbox && mail.Confirmation? && mail.raw == raw :: (mail.member, Lower(mail.to))
  }

  ghost function Confirmed(s: State, raw: nat, now: Time): State {
    var holder := ConfirmHolder(s, raw);
    var t := s.(proven := s.proven + ProvenBy(s, raw));
    if holder.None? then t
    else WithSubscription(t, holder.value,
                          s.db.subscriptions[holder.value].(confirmedAt := Some(now), confirmHash := Empty))
  }

  ghost function Unsubscribed(s: State, raw: nat): State {
    var holder := UnsubscribeHolder(s, raw);
    if holder.None? then s
    else WithSubscription(s, holder.value, s.db.subscriptions[holder.value].(enabled := false))
  }

  function Switched(s: State, m: MemberId, enabled: bool): State {
    if m in s.db.subscriptions then WithSubscription(s, m, s.db.subscriptions[m].(enabled := enabled)) else s
  }

  /** The account confirmation for the member's primary address: it proves that mailbox, and starts
      an unconfirmed subscription pointing at the same one. */
  function AccountConfirmed(s: State, m: MemberId, now: Time): State {
    if m !in s.signIn then s
    else
      var own := s.signIn[m];
      var t := s.(signIn := s.signIn[m := own.(verified := true)], proven := s.proven + {(m, Lower(own.email))});
      if m in s.db.subscriptions && s.db.subscriptions[m].confirmedAt.None?
         && Lower(s.db.subscriptions[m].address) == Lower(own.email)
      then WithSubscription(t, m, s.db.subscriptions[m].(confirmedAt := Some(now), confirmHash := Empty))
      else t
  }

  /** The member's primary sign-in address becomes another one, or goes. */
  function SignInChanged(s: State, m: MemberId, to: Option<SignIn>): State {
    s.(signIn := if to.Some? then s.signIn[m := to.value] else map k | k in s.signIn && k != m :: s.signIn[k])
  }

  /** Revocation and restore: both emailed capabilities die, the preference stays. */
  function Voided(s: State, m: MemberId): State {
    if m in s.db.subscriptions
    then WithSubscription(s, m, s.db.subscriptions[m].(confirmHash := Empty, unsubscribeHash := Empty))
    else s
  }

  // ----- Preservation -----

  /** A subscription row that may stand in for `m`'s: its tokens are its own, a confirmed one is
      proven, and a live confirm token went only to its address. */
  ghost predicate RowOk(s: State, m: MemberId, sub: Subscription) {
    var subs := s.db.subscriptions;
    && FreshIn(s, sub.confirmHash) && FreshIn(s, sub.unsubscribeHash)
    && (sub.confirmHash.HashOf? ==> forall n | n in subs && n != m :: subs[n].confirmHash != sub.confirmHash)
    && (sub.unsubscribeHash.HashOf? ==>
          forall n | n in subs && n != m :: subs[n].unsubscribeHash != sub.unsubscribeHash)
    && (sub.confirmedAt.Some? ==> (m, Lower(sub.address)) in s.proven && sub.confirmHash == Empty)
    && (forall mail | mail in s.outbox && mail.Confirmation? && sub.confirmHash == HashOf(mail.raw) ::
          mail.member == m && mail.to == sub.address)
  }

  lemma ReplacingKeepsInv(s: State, m: MemberId, sub: Subscription)
    requires Inv(s) && RowOk(s, m, sub)
    ensures Inv(WithSubscription(s, m, sub))
  {
    var t := WithSubscription(s, m, sub);
    assert TokensInv(t);
    assert ConsentInv(t);
  }

  lemma SubscribedKeepsInv(s: State, m: MemberId, address: string, cadence: string, now: Time, delivered: bool)
    requires Inv(s)
    ensures Inv(Subscribed(s, m, address, cadence, now, delivered))
  {
    var subs := s.db.subscriptions;
    if m in subs && subs[m].address == address && subs[m].confirmedAt.Some? {
      ReplacingKeepsInv(s, m, subs[m].(cadence := CadenceOr(cadence), enabled := true));
    } else if Own(s, m, address).Some? {
      OwnKeepsInv(s, m, Own(s, m, address).value, CadenceOr(cadence), now);
    } else {
      EnrolledKeepsInv(s, m, address, CadenceOr(cadence));
    }
  }

  lemma OwnKeepsInv(s: State, m: MemberId, own: SignIn, cadence: string, now: Time)
    requires Inv(s) && m in s.signIn && s.signIn[m] == own
    ensures Inv(SubscribedToOwn(s, m, own, cadence, now))
  {
    DrawingKeepsInv(s, 1);
    ReplacingKeepsInv(s.(nextRaw := s.nextRaw + 1), m, SubscribedToOwn(s, m, own, cadence, now).db.subscriptions[m]);
  }

  lemma DrawingKeepsInv(s: State, n: nat)
    requires Inv(s)
    ensures Inv(s.(nextRaw := s.nextRaw + n))
  {
  }

  lemma EnrolledKeepsInv(s: State, m: MemberId, address: string, cadence: string)
    requires Inv(s)
    ensures Inv(Enrolled(s, m, address, cadence))
    ensures Inv(Mailed(Enrolled(s, m, address, cadence), Confirmation(address, m, s.nextRaw)))
  {
    DrawingKeepsInv(s, 2);
    ReplacingKeepsInv(s.(nextRaw := s.nextRaw + 2), m,
                      Subscription(address, cadence, true, None, HashOf(s.nextRaw), HashOf(s.nextRaw + 1)));
    MailingKeepsInv(Enrolled(s, m, address, cadence), m, s.nextRaw);
  }

  /** Mailing a live confirm token to the address it is for. */
  lemma MailingKeepsInv(s: State, m: MemberId, raw: nat)
    requires Inv(s) && m in s.db.subscriptions && s.db.subscriptions[m].confirmHash == HashOf(raw)
    ensures Inv(Mailed(s, Confirmation(s.db.subscriptions[m].address, m, raw)))
  {
    var t := Mailed(s, Confirmation(s.db.subscriptions[m].address, m, raw));
    assert TokensInv(t);
    assert ConsentInv(t);
  }

  lemma ConfirmHolderIsUnique(s: State, raw: nat, m: MemberId)
    requires TokensInv(s) && m in s.db.subscriptions && s.db.subscriptions[m].confirmHash == HashOf(raw)
    ensures ConfirmHolder(s, raw) == Some(m)
  {
  }

  lemma UnsubscribeHolderIsUnique(s: State, raw: nat, m: MemberId)
    requires TokensInv(s) && m in s.db.subscriptions && s.db.subscriptions[m].unsubscribeHash == HashOf(raw)
    ensures UnsubscribeHolder(s, raw) == Some(m)
  {
  }

  /** A token nobody was mailed cannot be presented: it is 256 bits from a CSPRNG. */
  ghost predicate Presentable(s: State, raw: nat) {
    ConfirmHolder(s, raw).Some? ==> exists mail :: mail in s.outbox && mail.Confirmation? && mail.raw == raw
  }

  lemma ConfirmedKeepsInv(s: State, raw: nat, now: Time)
    requires Inv(s) && Presentable(s, raw)
    ensures Inv(Confirmed(s, raw, now))
  {
    var holder := ConfirmHolder(s, raw);
    var t := s.(proven := s.proven + ProvenBy(s, raw));
    if holder.Some? {
      var mail :| mail in s.outbox && mail.Confirmation? && mail.raw == raw;
      assert (mail.member, Lower(mail.to)) in ProvenBy(s, raw);
      ReplacingKeepsInv(t, holder.value,
                        s.db.subscriptions[holder.value].(confirmedAt := Some(now), confirmHash := Empty));
    }
  }

  lemma SwitchesKeepInv(s: State, m: MemberId, raw: nat, enabled: bool)
    requires Inv(s)
    ensures Inv(Switched(s, m, enabled)) && Inv(Unsubscribed(s, raw)) && Inv(Voided(s, m))
  {
    if m in s.db.subscriptions {
      var sub := s.db.subscriptions[m];
      ReplacingKeepsInv(s, m, sub.(enabled := enabled));
      ReplacingKeepsInv(s, m, sub.(confirmHash := Empty, unsubscribeHash := Empty));
    }
    var holder := UnsubscribeHolder(s, raw);
    if holder.Some? {
      ReplacingKeepsInv(s, holder.value, s.db.subscriptions[holder.value].(enabled := false));
    }
  }

  lemma SwitchesKeepInvIf(s: State, m: MemberId, enabled: bool)
    ensures Inv(s) ==> Inv(Switched(s, m, enabled))
  {
    if Inv(s) {
      SwitchesKeepInv(s, m, 0, enabled);
    }
  }

  lemma SwitchingBack(s: State, m: MemberId, enabled: bool)
    requires m in s.db.subscriptions
    ensures Switched(Switched(s, m, enabled), m, s.db.subscriptions[m].enabled) == s
  {
    var subs := s.db.subscriptions;
    assert subs[m := subs[m].(enabled := enabled)][m := subs[m]] == subs;
  }

  lemma AccountConfirmedKeepsInv(s: State, m: MemberId, now: Time)
    requires Inv(s)
    ensures Inv(AccountConfirmed(s, m, now))
  {
    if m in s.signIn {
      var own := s.signIn[m];
      var t := s.(signIn := s.signIn[m := own.(verified := true)], proven := s.proven + {(m, Lower(own.email))});
      if m in s.db.subscriptions && s.db.subscriptions[m].confirmedAt.None?
         && Lower(s.db.subscriptions[m].address) == Lower(own.email) {
        ReplacingKeepsInv(t, m, s.db.subscriptions[m].(confirmedAt := Some(now), confirmHash := Empty));
      }
    }
  }

  /** A spent or replaced confirm link resolves like one that never existed. */
  lemma OldConfirmLinksDie(s: State, m: MemberId, raw: nat, address: string, cadence: string, now: Time, d: bool)
    requires Inv(s) && raw < s.nextRaw
    ensures ConfirmHolder(Confirmed(s, raw, now), raw).None?
    ensures ConfirmHolder(s, raw) == Some(m) ==>
              ConfirmHolder(Subscribed(s, m, address, cadence, now, d), raw).None?
  {
    if ConfirmHolder(s, raw) == Some(m) {
      assert s.db.subscriptions[m].confirmedAt.None?;
      var t := Subscribed(s, m, address, cadence, now, d);
      forall n | n in t.db.subscriptions ensures t.db.subscriptions[n].confirmHash != HashOf(raw) {
        if n != m {
          assert t.db.subscriptions[n] == s.db.subscriptions[n];
        }
      }
    }
  }

  // ----- The service functions -----

  method Subscribe(store: Store, m: MemberId, address: string, cadence: string, now: Time, delivered: bool)
    modifies store
    ensures store.s == Subscribed(old(store.s), m, address, cadence, now, delivered)
  {
    var cadence' := if KnownCadence(cadence) then cadence else "weekly";
    var subs := store.s.db.subscriptions;
    if m in subs && subs[m].address == address && subs[m].confirmedAt.Some? {
      store.s := WithSubscription(store.s, m, subs[m].(cadence := cadence', enabled := true));
      return;
    }
    var own := Own(store.s, m, address);
    if own.Some? {
      var proven := own.value.email;
      var sameMailboxAlreadyConfirmed :=
        m in subs && subs[m].confirmedAt.Some? && Lower(subs[m].address) == Lower(proven);
      var confirmedAt: Option<Time>;
      if own.value.verified { confirmedAt := Some(now); }
      else if sameMailboxAlreadyConfirmed { confirmedAt := subs[m].confirmedAt; }
      else { confirmedAt := None; }
      var unsubscribe := DrawToken(store);
      store.s := WithSubscription(store.s, m,
                                  Subscription(proven, cadence', true, confirmedAt, Empty, HashOf(unsubscribe)));
      return;
    }
    var rawConfirm := DrawToken(store);
    var rawUnsubscribe := DrawToken(store);
    store.s := WithSubscription(store.s, m, Subscription(address, cadence', true, None, HashOf(rawConfirm),
                                                        HashOf(rawUnsubscribe)));
    if delivered {
      store.s := Mailed(store.s, Confirmation(address, m, rawConfirm));
    }
  }

  /** `secrets.token_urlsafe(32)`: a value never drawn before. Not undone by a rollback. */
  method DrawToken(store: Store) returns (raw: nat)
    modifies store
    ensures raw == old(store.s.nextRaw) && store.s == old(store.s).(nextRaw := raw + 1)
  {
    raw := store.s.nextRaw;
    store.s := store.s.(nextRaw := raw + 1);
  }

  /** Single use: confirming voids the token, and an unknown one changes no subscription. */
  method Confirm(store: Store, raw: nat, now: Time) returns (found: bool)
    requires TokensInv(store.s)
    modifies store
    ensures store.s == Confirmed(old(store.s), raw, now)
    ensures found == ConfirmHolder(old(store.s), raw).Some?
  {
    var s := store.s;
    var shown := set mail | mail in s.outbox && mail.Confirmation? && mail.raw == raw :: (mail.member, Lower(mail.to));
    store.s := s.(proven := s.proven + shown);
    found := exists m | m in s.db.subscriptions :: s.db.subscriptions[m].confirmHash == HashOf(raw);
    if found {
      var m :| m in s.db.subscriptions && s.db.subscriptions[m].confirmHash == HashOf(raw);
      ConfirmHolderIsUnique(s, raw, m);
      store.s := WithSubscription(store.s, m, s.db.subscriptions[m].(confirmedAt := Some(now), confirmHash := Empty));
    }
  }

  method Unsubscribe(store: Store, raw: nat) returns (found: bool)
    requires TokensInv(store.s)
    modifies store
    ensures store.s == Unsubscribed(old(store.s), raw)
    ensures found == UnsubscribeHolder(old(store.s), raw).Some?
  {
    var s := store.s;
    found := exists m | m in s.db.subscriptions :: s.db.subscriptions[m].unsubscribeHash == HashOf(raw);
    if found {
      var m :| m in s.db.subscriptions && s.db.subscriptions[m].unsubscribeHash == HashOf(raw);
      UnsubscribeHolderIsUnique(s, raw, m);
      store.s := WithSubscription(s, m, s.db.subscriptions[m].(enabled := false));
    }
  }

  /** The one preference of the one member, and nothing else: no address, no confirmation, no token, no
      mail; what was on its way stays valid. Switching there and back is no change at all. */
  method SetEnabled(store: Store, m: MemberId, enabled: bool)
    modifies store
    ensures store.s == Switched(old(store.s), m, enabled)
    ensures var before, after := old(store.s.db.subscriptions), store.s.db.subscriptions;
            && after.Keys == before.Keys
            && (m in before ==> after[m].enabled == enabled && after[m].(enabled := before[m].enabled) == before[m])
            && (forall n | n in before && n != m :: after[n] == before[n])
    ensures store.s.(db := store.s.db.(subscriptions := old(store.s.db.subscriptions))) == old(store.s)
    ensures m in old(store.s.db.subscriptions) ==>
              Switched(store.s, m, old(store.s.db.subscriptions[m].enabled)) == old(store.s)
    ensures Inv(old(store.s)) ==> Inv(store.s)
  {
    SwitchesKeepInvIf(store.s, m, enabled);
    if m in store.s.db.subscriptions {
      SwitchingBack(store.s, m, enabled);
    }
    var subs := store.s.db.subscriptions;
    if m in subs {
      store.s := WithSubscription(store.s, m, subs[m].(enabled := enabled));
    }
  }

  /** A fresh unsubscribe capability for one outgoing message. */
  method RotateUnsubscribe(store: Store, m: MemberId) returns (raw: nat)
    requires m in store.s.db.subscriptions
    modifies store
    ensures raw == old(store.s.nextRaw)
    ensures store.s == WithSubscription(old(store.s), m,
                                        old(store.s.db.subscriptions[m]).(unsubscribeHash := HashOf(raw)))
                         .(nextRaw := raw + 1)
  {
    raw := DrawToken(store);
    store.s := WithSubscription(store.s, m, store.s.db.subscriptions[m].(unsubscribeHash := HashOf(raw)));
  }
}
