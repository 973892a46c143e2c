/** Invite links: capped, locked while redeemed, and able to hand their role to the first person
    through and to nobody after - never the family admin's. */
module Invites {
  import opened Wrappers

  type Raw = nat
  type Thread = nat

  datatype Role = Plain | PodOwner | YardAdmin | InstanceAdmin | Supervised

  predicate GrantableByLink(r: Role) { r == YardAdmin }

  datatype Invite = Invite(
    pod: nat, expiresAt: int, maxUses: nat, useCount: nat, revoked: bool, grantsRole: Option<Role>)

  datatype Redemption = Redemption(invite: Raw, pod: nat, role: Role)

  /** A redeemer inside its transaction: the link, and the row as it read it. */
  datatype Redeeming = Redeeming(invite: Raw, seen: Invite)

  datatype State = State(
    invites: map<Raw, Invite>, redemptions: seq<Redemption>, locks: map<Raw, Thread>,
    running: map<Thread, Redeeming>)

  predicate Usable(i: Invite, now: int) {
    !i.revoked && now < i.expiresAt && i.useCount < i.maxUses
  }

  /** `peek_invite`: reads, locks nothing, consumes nothing. */
  function Peek(s: State, raw: Raw, now: int): Option<Invite> {
    if raw in s.invites && Usable(s.invites[raw], now) then Some(s.invites[raw]) else None
  }

  /** The role is decided from the row read under the lock, and capped again here: a row edited by
      hand can name any role and hands over at most the side admin's. */
  function RoleFor(seen: Invite): Role {
    var granted := if seen.useCount == 0 then seen.grantsRole else None;
    if granted.Some? && GrantableByLink(granted.value) then granted.value else Plain
  }

  datatype Event =
    | Mint(raw: Raw, invite: Invite)
    | Revoke(raw: Raw)
    | EditByHand(raw: Raw, role: Option<Role>)  // a database shell, around both refusals to write it
    | Start(thread: Thread, raw: Raw, now: int)  // lock the row and re-check it
    | Finish(thread: Thread)                     // member, redemption, count, commit
    | Abort(thread: Thread)                      // something failed: roll back

  /** Anything that writes an invite row waits for its lock. Unlocked, it does not. */
  predicate Waits(s: State, raw: Raw, locking: bool) {
    locking && raw in s.locks
  }

  function Step(s: State, e: Event, locking: bool): State {
    match e
    case Mint(raw, i) =>
      if raw in s.invites || i.useCount != 0 || (i.grantsRole.Some? && !GrantableByLink(i.grantsRole.value)) then s
      else s.(invites := s.invites[raw := i])
    case Revoke(raw) =>
      if raw !in s.invites || Waits(s, raw, locking) then s
      else s.(invites := s.invites[raw := s.invites[raw].(revoked := true)])
    case EditByHand(raw, role) =>
      if raw !in s.invites || Waits(s, raw, locking) then s
      else s.(invites := s.invites[raw := s.invites[raw].(grantsRole := role)])
    case Start(t, raw, now) =>
      if t in s.running || Waits(s, raw, locking) || Peek(s, raw, now).None? then s
      else s.(locks := s.locks[raw := t], running := s.running[t := Redeeming(raw, s.invites[raw])])
    case Finish(t) =>
      if t !in s.running || s.running[t].invite !in s.invites then s else Redeemed(s, t)
    case Abort(t) =>
      if t !in s.running then s
      else
        s.(locks := map r | r in s.locks && r != s.running[t].invite :: s.locks[r],
           running := map u | u in s.running && u != t :: s.running[u])
  }

  function Redeemed(s: State, t: Thread): State
    requires t in s.running && s.running[t].invite in s.invites
  {
    var raw, seen := s.running[t].invite, s.running[t].seen;
    State(s.invites[raw := s.invites[raw].(useCount := s.invites[raw].useCount + 1)],
          s.redemptions + [Redemption(raw, seen.pod, RoleFor(seen))],
          map r | r in s.locks && r != raw :: s.locks[r],
          map u | u in s.running && u != t :: s.running[u])
  }

  function Run(s: State, events: seq<Event>, locking: bool): State
    decreases |events|
  {
    if events == [] then s else Run(Step(s, events[0], locking), events[1..], locking)
  }

  /** How often a link was redeemed. */
  function Uses(redemptions: seq<Redemption>, raw: Raw): nat {
    if redemptions == [] then 0
    else
      var last := redemptions[|redemptions| - 1];
      Uses(redemptions[..|redemptions| - 1], raw) + if last.invite == raw then 1 else 0
  }

  lemma UsesSnoc(redemptions: seq<Redemption>, r: Redemption, raw: Raw)
    ensures Uses(redemptions + [r], raw) == Uses(redemptions, raw) + if r.invite == raw then 1 else 0
  {
    assert (redemptions + [r])[..|redemptions|] == redemptions;
  }

  lemma {:induction false} UnusedMeansNone(redemptions: seq<Redemption>, raw: Raw)
    ensures Uses(redemptions, raw) == 0 <==> forall r | r in redemptions :: r.invite != raw
  {
    if redemptions != [] {
      var last := |redemptions| - 1;
      UnusedMeansNone(redemptions[..last], raw);
      assert redemptions == redemptions[..last] + [redemptions[last]];
    }
  }

  /** A redeemer holds its row, which is still as it read it. */
  ghost predicate Holds(s: State, t: Thread) {
    t in s.running ==>
      var r := s.running[t];
      r.invite in s.invites && r.invite in s.locks && s.locks[r.invite] == t
      && s.invites[r.invite] == r.seen && r.seen.useCount < r.seen.maxUses
  }

  ghost predicate Counted(s: State, raw: Raw) {
    if raw in s.invites then s.invites[raw].useCount == Uses(s.redemptions, raw) <= s.invites[raw].maxUses
    else Uses(s.redemptions, raw) == 0
  }

  ghost predicate RolesOk(redemptions: seq<Redemption>) {
    && (forall r | r in redemptions :: r.role == Plain || r.role == YardAdmin)
    && (forall i, j | 0 <= i < j < |redemptions| && redemptions[i].invite == redemptions[j].invite ::
          redemptions[j].role == Plain)
  }

  ghost predicate Inv(s: State) {
    && (forall t: Thread :: Holds(s, t))
    && (forall raw: Raw :: Counted(s, raw))
    && RolesOk(s.redemptions)
  }

  lemma RedeemingKeepsInv(s: State, t: Thread)
    requires Inv(s) && t in s.running
    ensures Holds(s, t) && Inv(Redeemed(s, t))
  {
    assert Holds(s, t);
    var s' := Redeemed(s, t);
    var raw, seen := s.running[t].invite, s.running[t].seen;
    var r := Redemption(raw, seen.pod, RoleFor(seen));
    forall k: Raw ensures Counted(s', k) {
      assert Counted(s, k);
      UsesSnoc(s.redemptions, r, k);
    }
    forall u: Thread ensures Holds(s', u) {
      assert Holds(s, u);
    }
    assert Counted(s, raw);
    UnusedMeansNone(s.redemptions, raw);
  }

  lemma StepKeepsInv(s: State, e: Event)
    requires Inv(s)
    ensures Inv(Step(s, e, true))
  {
    var s' := Step(s, e, true);
    if e.Finish? && e.thread in s.running {
      RedeemingKeepsInv(s, e.thread);
    } else {
      if e.Abort? {
        assert Holds(s, e.thread);
      }
      forall k: Raw ensures Counted(s', k) {
        assert Counted(s, k);
      }
      forall u: Thread ensures Holds(s', u) {
        assert Holds(s, u);
      }
    }
  }

  lemma {:induction false} EveryRunKeepsInv(s: State, events: seq<Event>)
    requires Inv(s)
    ensures Inv(Run(s, events, true))
    decreases |events|
  {
    if events != [] {
      StepKeepsInv(s, events[0]);
      EveryRunKeepsInv(Step(s, events[0], true), events[1..]);
    }
  }

  const NONE_YET := State(map[], [], map[], map[])

  /** For every interleaving of redeemers, with revocations and hand edits in between: the count is the
      number of redemptions and never passes the cap; nobody is made family admin; and only the first
      person through a link can have received its role. */
  lemma LinksAreBounded(events: seq<Event>)
    ensures var s := Run(NONE_YET, events, true);
            && (forall raw | raw in s.invites ::
                  s.invites[raw].useCount == Uses(s.redemptions, raw) <= s.invites[raw].maxUses)
            && (forall k | 0 <= k < |s.redemptions| :: s.redemptions[k].role in {Plain, YardAdmin})
            && (forall i, k | 0 <= i < k < |s.redemptions| && s.redemptions[k].role == YardAdmin ::
                  s.redemptions[i].invite != s.redemptions[k].invite)
  {
    EveryRunKeepsInv(NONE_YET, events);
    var s := Run(NONE_YET, events, true);
    forall raw | raw in s.invites ensures Counted(s, raw) {
    }
  }

  // ----- What makes a link, and what closes it -----

  /** A link is made unused, and to grant the side admin's role or none. */
  lemma MintedExactly(s: State, raw: Raw, i: Invite)
    requires raw !in s.invites && i.useCount == 0
    ensures Step(s, Mint(raw, i), true) ==
            if i.grantsRole in {None, Some(YardAdmin)} then s.(invites := s.invites[raw := i]) else s
  {
  }

  /** A redeemer gets past the checks exactly on a link that is there, not revoked, not expired and not used
      up - and then holds it as it is. */
  lemma StartsExactly(s: State, t: Thread, raw: Raw, now: int)
    requires t !in s.running && raw !in s.locks
    ensures var s' := Step(s, Start(t, raw, now), true);
            if raw in s.invites && !s.invites[raw].revoked && now < s.invites[raw].expiresAt
               && s.invites[raw].useCount < s.invites[raw].maxUses
            then t in s'.running && s'.running[t] == Redeeming(raw, s.invites[raw])
            else s' == s
  {
  }

  /** Nobody is in the middle of redeeming this link. */
  ghost predicate Idle(s: State, raw: Raw) {
    forall t | t in s.running :: s.running[t].invite != raw
  }

  /** The link can no longer be redeemed: revoked, or every redeemer from here on comes too late. */
  ghost predicate Shut(s: State, raw: Raw, events: seq<Event>) {
    raw in s.invites
    && (s.invites[raw].revoked
        || forall e | e in events && e.Start? && e.raw == raw :: s.invites[raw].expiresAt <= e.now)
  }

  lemma StepStaysShut(s: State, events: seq<Event>, raw: Raw)
    requires events != [] && Idle(s, raw) && Shut(s, raw, events)
    ensures var s' := Step(s, events[0], true);
            Idle(s', raw) && Shut(s', raw, events[1..]) && Uses(s'.redemptions, raw) == Uses(s.redemptions, raw)
  {
    var e := events[0];
    assert e in events && forall f | f in events[1..] :: f in events;
    if e.Finish? && e.thread in s.running && s.running[e.thread].invite in s.invites {
      var r := s.running[e.thread];
      UsesSnoc(s.redemptions, Redemption(r.invite, r.seen.pod, RoleFor(r.seen)), raw);
    }
  }

  /** Once revoked or expired, a link nobody is in the middle of redeeming is never redeemed again, whatever
      else is minted, edited, redeemed or rolled back. */
  lemma {:induction false} ShutLinksStayShut(s: State, events: seq<Event>, raw: Raw)
    requires Idle(s, raw) && Shut(s, raw, events)
    ensures Uses(Run(s, events, true).redemptions, raw) == Uses(s.redemptions, raw)
    decreases |events|
  {
    if events != [] {
      StepStaysShut(s, events, raw);
      ShutLinksStayShut(Step(s, events[0], true), events[1..], raw);
    }
  }

  /** A redeemer that finishes lets its link go, and holds no other. */
  lemma FinishLetsGo(s: State, t: Thread)
    requires Inv(s) && t in s.running
    ensures var s', raw := Step(s, Finish(t), true), s.running[t].invite;
            && t !in s'.running && raw !in s'.locks
            && (forall r | r != raw :: r in s'.locks <==> r in s.locks)
            && forall u | u != t :: u in s'.running <==> u in s.running
  {
    assert Holds(s, t);
  }

  /** Rolling back gives the row back, and only then may somebody else start on it. */
  lemma AbortUndoesStart(s: State, t: Thread, raw: Raw, now: int)
    requires t !in s.running && raw !in s.locks
    ensures Step(Step(s, Start(t, raw, now), true), Abort(t), true) == s
  {
    var s' := Step(s, Start(t, raw, now), true);
    if s' != s {
      assert (map r | r in s'.locks && r != raw :: s'.locks[r]) == s.locks;
      assert (map u | u in s'.running && u != t :: s'.running[u]) == s.running;
    }
  }

  /** Unlocked, two redeemers may both start, each on the row as it is. */
  lemma BothStart(s: State, raw: Raw, now: int)
    requires raw in s.invites && Usable(s.invites[raw], now) && s.running == map[]
    ensures var both := Step(Step(s, Start(0, raw, now), false), Start(1, raw, now), false);
            && both.invites == s.invites && both.redemptions == s.redemptions
            && 0 in both.running && both.running[0] == Redeeming(raw, s.invites[raw])
            && 1 in both.running && both.running[1] == Redeeming(raw, s.invites[raw])
  {
  }

  /** ... and both finish, with the role each decided on. */
  lemma BothFinish(s: State, raw: Raw, i: Invite)
    requires raw in s.invites && 0 in s.running && 1 in s.running
    requires s.running[0] == Redeeming(raw, i) && s.running[1] == Redeeming(raw, i)
    ensures var done := Step(Step(s, Finish(0), false), Finish(1), false);
            var r := Redemption(raw, i.pod, RoleFor(i));
            done.redemptions == s.redemptions + [r] + [r]
  {
    var one := Redeemed(s, 0);
    assert 1 in one.running && one.running[1] == s.running[1] && raw in one.invites;
  }

  /** Without the row lock two redeemers of a one-use link both get in, and both get the role. */
  lemma UnlockedRaceOverfills() returns (s: State, s': State, raw: Raw)
    ensures Inv(s) && raw in s.invites && s.invites[raw].maxUses == 1 && s.redemptions == []
    ensures var both := Step(Step(s, Start(0, raw, 0), false), Start(1, raw, 0), false);
            s' == Step(Step(both, Finish(0), false), Finish(1), false)
    ensures |s'.redemptions| == 2 && forall r | r in s'.redemptions :: r.role == YardAdmin
  {
    raw := 9;
    var i := Invite(3, 10, 1, 0, false, Some(YardAdmin));
    s := State(map[raw := i], [], map[], map[]);
    BothStart(s, raw, 0);
    var both := Step(Step(s, Start(0, raw, 0), false), Start(1, raw, 0), false);
    BothFinish(both, raw, i);
    s' := Step(Step(both, Finish(0), false), Finish(1), false);
  }

  /** A redemption with the link to itself, from lock to commit. */
  lemma RedeemingAlone(s: State, t: Thread, raw: Raw, now: int)
    requires Inv(s) && t !in s.running && raw !in s.locks && Peek(s, raw, now).Some?
    ensures var started := s.(locks := s.locks[raw := t], running := s.running[t := Redeeming(raw, s.invites[raw])]);
            && Step(s, Start(t, raw, now), true) == started && Step(started, Finish(t), true) == Redeemed(started, t)
            && Inv(Redeemed(started, t))
  {
    StepKeepsInv(s, Start(t, raw, now));
    RedeemingKeepsInv(Step(s, Start(t, raw, now), true), t);
  }

  class Ledger {
    var s: State

    /** `redeem_invite`: it passes its checks exactly when a peek in the same state would. */
    method Redeem(t: Thread, raw: Raw, now: int) returns (role: Option<Role>)
      requires Inv(s) && t !in s.running && raw !in s.locks
      modifies this
      ensures Inv(s)
      ensures role.Some? <==> Peek(old(s), raw, now).Some?
      ensures role.Some? <==>
                && raw in old(s.invites) && !old(s.invites)[raw].revoked && now < old(s.invites)[raw].expiresAt
                && old(s.invites)[raw].useCount < old(s.invites)[raw].maxUses
      ensures role.Some? ==>
                role.value == if old(s.invites)[raw].useCount == 0 && old(s.invites)[raw].grantsRole == Some(YardAdmin)
                              then YardAdmin else Plain
      ensures role.None? ==> s == old(s)
      ensures role.Some? ==>
                && role.value == RoleFor(old(s.invites)[raw])
                && s == Step(Step(old(s), Start(t, raw, now), true), Finish(t), true)
                && s.redemptions == old(s.redemptions) + [Redemption(raw, old(s.invites)[raw].pod, role.value)]
                && s.invites[raw].useCount == old(s.invites)[raw].useCount + 1
    {
      if raw !in s.invites { return None; }
      var invite := s.invites[raw];
      if invite.revoked || invite.expiresAt <= now { return None; }
      if invite.useCount >= invite.maxUses { return None; }
      RedeemingAlone(s, t, raw, now);
      s := s.(locks := s.locks[raw := t], running := s.running[t := Redeeming(raw, invite)]);
      var granted := if invite.useCount == 0 then invite.grantsRole else None;
      var given := if granted.Some? && GrantableByLink(granted.value) then granted.value else Plain;
      s := State(s.invites[raw := invite.(useCount := invite.useCount + 1)],
                 s.redemptions + [Redemption(raw, invite.pod, given)],
                 map r | r in s.locks && r != raw :: s.locks[r],
                 map u | u in s.running && u != t :: s.running[u]);
      role := Some(given);
    }
  }
}
