/** Putting a member into a household and taking them out again: the sides each act gives and takes,
    and the rule that nobody is left in no household, against races too. */
module Households {
  import opened Wrappers
  import opened Collections

  type MemberId = nat
  type PodId = nat
  type YardId = nat

  /** A household or a group, with its sides in name order. */
  datatype Pod = Pod(household: bool, yards: seq<YardId>)

  datatype Change = Added(member: MemberId, pod: PodId) | Removed(member: MemberId, pod: PodId)

  /** `shrinks` are the calls of the shrink registry: whose credentials, and over which lost sides. */
  datatype Db = Db(
    pods: map<PodId, Pod>, memberships: set<(MemberId, PodId)>, ledger: seq<Change>,
    shrinks: seq<(MemberId, set<YardId>)>)

  datatype Refusal = PermissionDenied | AlreadyIn | NotIn | LastHousehold | NoName | NoSide

  function PodsOf(db: Db, m: MemberId): set<PodId> {
    set e | e in db.memberships && e.0 == m && e.1 in db.pods :: e.1
  }

  function YardsOfPods(db: Db, pods: set<PodId>): set<YardId> {
    set p, y | p in pods && p in db.pods && y in db.pods[p].yards :: y
  }

  /** `scoping.member_yard_ids` */
  function YardsOf(db: Db, m: MemberId): set<YardId> {
    YardsOfPods(db, PodsOf(db, m))
  }

  function Without<T(==)>(s: seq<T>, drop: set<T>): (r: seq<T>)
    ensures Elements(r) == Elements(s) - drop
    ensures |r| <= |s|
  {
    if s == [] then []
    else
      var rest := Without(s[1..], drop);
      assert s == [s[0]] + s[1..];
      assert Elements(s) == {s[0]} + Elements(s[1..]);
      if s[0] in drop then rest
      else
        assert Elements([s[0]] + rest) == {s[0]} + Elements(rest);
        [s[0]] + rest
  }

  function SidesGained(db: Db, m: MemberId, p: PodId): seq<YardId>
    requires p in db.pods
  {
    Without(db.pods[p].yards, YardsOf(db, m))
  }

  /** Counted from the pods that remain, not from the pod that goes. */
  function SidesLost(db: Db, m: MemberId, p: PodId): seq<YardId>
    requires p in db.pods
  {
    Without(db.pods[p].yards, YardsOfPods(db, PodsOf(db, m) - {p}))
  }

  predicate InHousehold(db: Db, m: MemberId) {
    exists p | p in PodsOf(db, m) :: db.pods[p].household
  }

  predicate IsTheirLastHousehold(db: Db, m: MemberId, p: PodId) {
    !exists q | q in PodsOf(db, m) :: db.pods[q].household && q != p
  }

  datatype Act =
    | Add(member: MemberId, pod: PodId)
    | Create(member: MemberId, name: string, yards: seq<YardId>, newPod: PodId)
    | Remove(member: MemberId, pod: PodId)

  /** Whether the act would be wrong in this database: a no-op, an unnamed household, one on no side,
      or somebody's last. */
  function Check(db: Db, a: Act): Option<Refusal> {
    match a
    case Add(m, p) => if (m, p) in db.memberships then Some(AlreadyIn) else None
    case Create(_, name, yards, _) => if name == "" then Some(NoName) else if yards == [] then Some(NoSide) else None
    case Remove(m, p) =>
      if (m, p) !in db.memberships then Some(NotIn)
      else if IsTheirLastHousehold(db, m, p) then Some(LastHousehold)
      else None
  }

  /** The write of a checked act. */
  function Written(db: Db, a: Act): Db
    requires a.Remove? ==> a.pod in db.pods
  {
    match a
    case Add(m, p) => db.(memberships := db.memberships + {(m, p)}, ledger := db.ledger + [Added(m, p)])
    case Create(m, _, yards, p) =>
      db.(pods := db.pods[p := Pod(true, yards)], memberships := db.memberships + {(m, p)},
          ledger := db.ledger + [Added(m, p)])
    case Remove(m, p) =>
      db.(memberships := db.memberships - {(m, p)}, ledger := db.ledger + [Removed(m, p)],
          shrinks := db.shrinks + [(m, Elements(SidesLost(db, m, p)))])
  }

  /** Households named by a membership exist; a new one is new. */
  predicate Possible(db: Db, a: Act) {
    match a
    case Create(_, _, _, p) => p !in db.pods && forall e | e in db.memberships :: e.1 != p
    case _ => a.pod in db.pods
  }

  // ----- What the confirm page says is what happens -----

  lemma UnionOfYards(db: Db, a: set<PodId>, b: set<PodId>)
    ensures YardsOfPods(db, a + b) == YardsOfPods(db, a) + YardsOfPods(db, b)
  {
  }

  lemma OnePodsYards(db: Db, p: PodId)
    requires p in db.pods
    ensures YardsOfPods(db, {p}) == Elements(db.pods[p].yards)
  {
    assert p in {p};
  }

  /** The sides named as gained are exactly the sides the member sees after and did not before. */
  lemma GainedIsTheDifference(db: Db, m: MemberId, p: PodId)
    requires p in db.pods
    ensures Elements(SidesGained(db, m, p)) == YardsOf(Written(db, Add(m, p)), m) - YardsOf(db, m)
    ensures YardsOf(db, m) <= YardsOf(Written(db, Add(m, p)), m)
  {
    var after := Written(db, Add(m, p));
    assert PodsOf(after, m) == PodsOf(db, m) + {p} by {
      assert (m, p) in after.memberships;
    }
    UnionOfYards(after, PodsOf(db, m), {p});
    assert YardsOfPods(after, PodsOf(db, m)) == YardsOf(db, m);
    OnePodsYards(after, p);
  }

  /** Likewise for a household made on the spot. */
  lemma CreatedGainIsTheDifference(db: Db, m: MemberId, name: string, yards: seq<YardId>, p: PodId)
    requires Possible(db, Create(m, name, yards, p))
    ensures Elements(Without(yards, YardsOf(db, m)))
         == YardsOf(Written(db, Create(m, name, yards, p)), m) - YardsOf(db, m)
  {
    var after := Written(db, Create(m, name, yards, p));
    assert PodsOf(after, m) == PodsOf(db, m) + {p} by {
      assert (m, p) in after.memberships;
      assert forall q | q in PodsOf(db, m) :: (m, q) in after.memberships && q in after.pods;
    }
    UnionOfYards(after, PodsOf(db, m), {p});
    assert YardsOfPods(after, PodsOf(db, m)) == YardsOf(db, m);
    OnePodsYards(after, p);
  }

  /** The sides named as lost, which are the sides credentials are revoked over, are exactly the sides
      the member saw before and does not after. */
  lemma LostIsTheDifference(db: Db, m: MemberId, p: PodId)
    requires p in db.pods && (m, p) in db.memberships
    ensures Elements(SidesLost(db, m, p)) == YardsOf(db, m) - YardsOf(Written(db, Remove(m, p)), m)
    ensures YardsOf(Written(db, Remove(m, p)), m) <= YardsOf(db, m)
  {
    var after := Written(db, Remove(m, p));
    var others := PodsOf(db, m) - {p};
    assert PodsOf(after, m) == others;
    assert PodsOf(db, m) == others + {p} by {
      assert p in PodsOf(db, m);
    }
    assert YardsOfPods(after, others) == YardsOfPods(db, others);
    UnionOfYards(db, others, {p});
    OnePodsYards(db, p);
  }

  // ----- What an act changes and records, in memberships, ledger and registry alone -----

  /** The member sees a yard through a membership in a pod that is in it. */
  ghost predicate Sees(db: Db, m: MemberId, y: YardId) {
    exists p :: (m, p) in db.memberships && p in db.pods && y in db.pods[p].yards
  }

  lemma SeesExactly(db: Db, m: MemberId, y: YardId)
    ensures y in YardsOf(db, m) <==> Sees(db, m, y)
  {
    if p :| (m, p) in db.memberships && p in db.pods && y in db.pods[p].yards {
      assert p in PodsOf(db, m);
    }
    if y in YardsOf(db, m) {
      var p :| p in PodsOf(db, m) && p in db.pods && y in db.pods[p].yards;
      var e :| e in db.memberships && e.0 == m && e.1 == p;
      assert e == (m, p);
    }
  }

  /** What an act that was carried out has done. A removal calls the shrink registry once, over exactly the
      sides the member saw before and does not see after, and is recorded; an addition or a creation calls it
      never. Nobody else's memberships, and no other pod, are touched. */
  ghost predicate CarriedOut(before: Db, a: Act, after: Db) {
    match a
    case Add(m, p) =>
      && after.memberships == before.memberships + {(m, p)} && after.pods == before.pods
      && after.ledger == before.ledger + [Added(m, p)] && after.shrinks == before.shrinks
    case Create(m, _, yards, p) =>
      && after.memberships == before.memberships + {(m, p)} && after.pods == before.pods[p := Pod(true, yards)]
      && after.ledger == before.ledger + [Added(m, p)] && after.shrinks == before.shrinks
    case Remove(m, p) =>
      && after.memberships == before.memberships - {(m, p)} && after.pods == before.pods
      && after.ledger == before.ledger + [Removed(m, p)]
      && |after.shrinks| == |before.shrinks| + 1 && before.shrinks <= after.shrinks
      && after.shrinks[|before.shrinks|].0 == m
      && forall y :: y in after.shrinks[|before.shrinks|].1 <==> Sees(before, m, y) && !Sees(after, m, y)
  }

  lemma WrittenIsCarriedOut(db: Db, a: Act)
    requires Possible(db, a)
    ensures a.Remove? ==> (a.member, a.pod) in db.memberships ==> CarriedOut(db, a, Written(db, a))
    ensures !a.Remove? ==> CarriedOut(db, a, Written(db, a))
  {
    if a.Remove? && (a.member, a.pod) in db.memberships {
      var m, after := a.member, Written(db, a);
      LostIsTheDifference(db, m, a.pod);
      forall y ensures y in Elements(SidesLost(db, m, a.pod)) <==> Sees(db, m, y) && !Sees(after, m, y) {
        SeesExactly(db, m, y);
        SeesExactly(after, m, y);
      }
    }
  }

  /** Which refusal, if any. A creation is checked before anybody asks who is asking. */
  predicate WouldLeaveNone(db: Db, m: MemberId, p: PodId) {
    forall e | e in db.memberships && e.0 == m && e.1 in db.pods && db.pods[e.1].household :: e.1 == p
  }

  function RefusedBecause(db: Db, a: Act, may: bool): Option<Refusal> {
    match a
    case Add(m, p) =>
      if !may then Some(PermissionDenied) else if (m, p) in db.memberships then Some(AlreadyIn) else None
    case Create(_, name, yards, _) =>
      if |name| == 0 then Some(NoName) else if |yards| == 0 then Some(NoSide)
      else if !may then Some(PermissionDenied) else None
    case Remove(m, p) =>
      if !may then Some(PermissionDenied) else if (m, p) !in db.memberships then Some(NotIn)
      else if WouldLeaveNone(db, m, p) then Some(LastHousehold) else None
  }

  lemma LastMeansNone(db: Db, m: MemberId, p: PodId)
    ensures IsTheirLastHousehold(db, m, p) <==> WouldLeaveNone(db, m, p)
  {
    if !IsTheirLastHousehold(db, m, p) {
      var q :| q in PodsOf(db, m) && db.pods[q].household && q != p;
      var e :| e in db.memberships && e.0 == m && e.1 in db.pods && e.1 == q;
      assert db.pods[e.1].household && e.1 != p;
    }
    if !WouldLeaveNone(db, m, p) {
      var e :| e in db.memberships && e.0 == m && e.1 in db.pods && db.pods[e.1].household && e.1 != p;
      assert e.1 in PodsOf(db, m);
    }
  }

  // ----- Two admins at once -----

  datatype Phase = Idle | Begun(act: Act) | Checked(act: Act)

  /** Each thread's phase, and who holds each member's row lock. */
  datatype System = System(db: Db, locks: map<MemberId, nat>, phase: map<nat, Phase>)
  {
    function PhaseOf(t: nat): Phase { if t in phase then phase[t] else Idle }
  }

  datatype Event =
    | Begin(thread: nat, act: Act)  // lock the member row (or, unlocked, just start)
    | Verify(thread: nat)           // re-ask the check inside the transaction
    | Write(thread: nat)            // the membership change, and commit

  /** One step. With `locking`, an act begins only when nobody holds its member's row. */
  function Step(s: System, e: Event, locking: bool): System {
    match e
    case Begin(t, a) =>
      if s.PhaseOf(t) != Idle || (locking && a.member in s.locks) then s
      else s.(locks := s.locks[a.member := t], phase := s.phase[t := Begun(a)])
    case Verify(t) =>
      if !s.PhaseOf(t).Begun? then s
      else
        var a := s.PhaseOf(t).act;
        if !Possible(s.db, a) || Check(s.db, a).Some? then Released(s, t, a.member)
        else s.(phase := s.phase[t := Checked(a)])
    case Write(t) =>
      if !s.PhaseOf(t).Checked? then s
      else
        var a := s.PhaseOf(t).act;
        if !Possible(s.db, a) then Released(s, t, a.member)
        else Released(s.(db := Written(s.db, a)), t, a.member)
  }

  function Released(s: System, t: nat, m: MemberId): System {
    s.(locks := map k | k in s.locks && k != m :: s.locks[k], phase := s.phase[t := Idle])
  }

  function Run(s: System, events: seq<Event>, locking: bool): System
    decreases |events|
  {
    if events == [] then s else Run(Step(s, events[0], locking), events[1..], locking)
  }

  /** A running act holds its member's lock, and a checked removal is of a membership that is there and
      still leaves a household. */
  ghost predicate ThreadOk(s: System, t: nat) {
    var ph := s.PhaseOf(t);
    && (ph != Idle ==> ph.act.member in s.locks && s.locks[ph.act.member] == t)
    && (ph.Checked? && ph.act.Remove? ==>
          (ph.act.member, ph.act.pod) in s.db.memberships && !IsTheirLastHousehold(s.db, ph.act.member, ph.act.pod))
  }

  ghost predicate Inv(s: System) {
    forall t: nat :: ThreadOk(s, t)
  }

  /** An act changes no other member's pods. */
  lemma OthersKeepTheirPods(db: Db, a: Act, m: MemberId)
    requires Possible(db, a) && m != a.member
    ensures PodsOf(Written(db, a), m) == PodsOf(db, m)
    ensures forall p | p in PodsOf(db, m) :: Written(db, a).pods[p] == db.pods[p]
  {
    var after := Written(db, a);
    forall p | p in PodsOf(db, m) ensures p in PodsOf(after, m) {
      assert (m, p) in after.memberships;
    }
  }

  lemma CheckedWriteKeepsAHousehold(db: Db, a: Act)
    requires Possible(db, a) && (a.Remove? ==> !IsTheirLastHousehold(db, a.member, a.pod))
    requires InHousehold(db, a.member)
    ensures InHousehold(Written(db, a), a.member)
  {
    var m, after := a.member, Written(db, a);
    if a.Remove? {
      var q :| q in PodsOf(db, m) && db.pods[q].household && q != a.pod;
      assert (m, q) in after.memberships;
      assert q in PodsOf(after, m);
    } else {
      var q :| q in PodsOf(db, m) && db.pods[q].household;
      assert (m, q) in after.memberships;
      assert q in PodsOf(after, m);
    }
  }

  lemma StepKeepsInv(s: System, e: Event, m: MemberId)
    requires Inv(s)
    ensures Inv(Step(s, e, true))
    ensures InHousehold(s.db, m) ==> InHousehold(Step(s, e, true).db, m)
  {
    var s' := Step(s, e, true);
    assert ThreadOk(s, e.thread);
    forall t: nat ensures ThreadOk(s', t) {
      assert ThreadOk(s, t);
      if t != e.thread && s'.db != s.db {
        if s.PhaseOf(t) != Idle {
          OthersKeepTheirPods(s.db, s.PhaseOf(e.thread).act, s.PhaseOf(t).act.member);
        }
      }
    }
    if s'.db != s.db && InHousehold(s.db, m) {
      var a := s.PhaseOf(e.thread).act;
      if m == a.member {
        CheckedWriteKeepsAHousehold(s.db, a);
      } else {
        OthersKeepTheirPods(s.db, a, m);
      }
    }
  }

  /** Under the member lock, over every interleaving: whoever is in a household stays in one. */
  lemma {:induction false} NobodyIsStranded(s: System, events: seq<Event>, m: MemberId)
    requires Inv(s) && InHousehold(s.db, m)
    ensures Inv(Run(s, events, true)) && InHousehold(Run(s, events, true).db, m)
    decreases |events|
  {
    if events != [] {
      StepKeepsInv(s, events[0], m);
      NobodyIsStranded(Step(s, events[0], true), events[1..], m);
    }
  }

  function TwoHouseholds(memberships: set<(MemberId, PodId)>): Db {
    Db(map[10 := Pod(true, []), 20 := Pod(true, [])], memberships, [], [])
  }

  /** Each removal is checked while the other household is still there. */
  lemma BothPassTheCheck(s: System)
    requires s == System(TwoHouseholds({(1, 10), (1, 20)}), map[], map[])
    ensures var begun := Step(Step(s, Begin(0, Remove(1, 10)), false), Begin(1, Remove(1, 20)), false);
            var t := Step(Step(begun, Verify(0), false), Verify(1), false);
            t.db == s.db && t.PhaseOf(0) == Checked(Remove(1, 10)) && t.PhaseOf(1) == Checked(Remove(1, 20))
  {
    var db := s.db;
    assert (1, 10) in db.memberships && (1, 20) in db.memberships;
    assert 10 in PodsOf(db, 1) && 20 in PodsOf(db, 1);
    assert Check(db, Remove(1, 10)).None? && Check(db, Remove(1, 20)).None?;
  }

  lemma BothAreWritten(s: System)
    requires s.db == TwoHouseholds({(1, 10), (1, 20)})
    requires s.PhaseOf(0) == Checked(Remove(1, 10)) && s.PhaseOf(1) == Checked(Remove(1, 20))
    ensures Step(Step(s, Write(0), false), Write(1), false).db.memberships == {}
  {
    var t := Step(s, Write(0), false);
    assert t.PhaseOf(1) == s.PhaseOf(1) && t.db.memberships == {(1, 20)};
  }

  /** Under the lock a step leaves memberships, ledger and registry as they are, or carries out one act. */
  lemma StepCarriesOutOne(s: System, e: Event)
    requires Inv(s)
    ensures var t := Step(s, e, true);
            t.db == s.db || (s.PhaseOf(e.thread).Checked? && CarriedOut(s.db, s.PhaseOf(e.thread).act, t.db))
  {
    assert ThreadOk(s, e.thread);
    if e.Write? && s.PhaseOf(e.thread).Checked? && Possible(s.db, s.PhaseOf(e.thread).act) {
      WrittenIsCarriedOut(s.db, s.PhaseOf(e.thread).act);
    }
  }

  /** Some call of the registry since `from` was over this member and this side. */
  ghost predicate ShrunkSince(db: Db, from: nat, m: MemberId, y: YardId) {
    exists k :: from <= k < |db.shrinks| && db.shrinks[k].0 == m && y in db.shrinks[k].1
  }

  lemma LossIsShrunk(before: Db, a: Act, after: Db, m: MemberId, y: YardId)
    requires CarriedOut(before, a, after) && Possible(before, a) && Sees(before, m, y) && !Sees(after, m, y)
    ensures ShrunkSince(after, |before.shrinks|, m, y)
  {
    var p :| (m, p) in before.memberships && p in before.pods && y in before.pods[p].yards;
    assert p in after.pods && after.pods[p] == before.pods[p];
    assert a.Remove? && a.member == m;
    assert after.shrinks[|before.shrinks|].0 == m && y in after.shrinks[|before.shrinks|].1;
  }

  /** Over every run under the lock: whoever sees a side and later does not has had the registry called over
      just that side in between, so no credential that reaches it is left unrevoked. */
  lemma {:induction false} NoSideIsLostUnrevoked(s: System, events: seq<Event>, m: MemberId, y: YardId)
    requires Inv(s) && Sees(s.db, m, y) && !Sees(Run(s, events, true).db, m, y)
    ensures s.db.shrinks <= Run(s, events, true).db.shrinks
    ensures ShrunkSince(Run(s, events, true).db, |s.db.shrinks|, m, y)
    decreases |events|
  {
    if events != [] {
      var next := Step(s, events[0], true);
      StepKeepsInv(s, events[0], m);
      StepOnlyAddsShrinks(s, events[0]);
      RunOnlyAddsShrinks(next, events[1..]);
      var end := Run(next, events[1..], true).db;
      if Sees(next.db, m, y) {
        NoSideIsLostUnrevoked(next, events[1..], m, y);
      } else {
        StepCarriesOutOne(s, events[0]);
        LossIsShrunk(s.db, s.PhaseOf(events[0].thread).act, next.db, m, y);
        var k :| |s.db.shrinks| <= k < |next.db.shrinks| && next.db.shrinks[k].0 == m && y in next.db.shrinks[k].1;
        assert end.shrinks[k] == next.db.shrinks[k];
      }
    }
  }

  lemma StepOnlyAddsShrinks(s: System, e: Event)
    ensures s.db.shrinks <= Step(s, e, true).db.shrinks
  {
  }

  lemma {:induction false} RunOnlyAddsShrinks(s: System, events: seq<Event>)
    ensures s.db.shrinks <= Run(s, events, true).db.shrinks
    decreases |events|
  {
    if events != [] {
      StepOnlyAddsShrinks(s, events[0]);
      RunOnlyAddsShrinks(Step(s, events[0], true), events[1..]);
    }
  }

  /** An act that is written, or refused by its check, lets its member go, and nobody else's. */
  lemma EndingLetsGo(s: System, t: nat, e: Event)
    requires Inv(s) && s.PhaseOf(t) != Idle
    requires (e == Write(t) && s.PhaseOf(t).Checked?)
             || (e == Verify(t) && s.PhaseOf(t).Begun? && Possible(s.db, s.PhaseOf(t).act)
                 && Check(s.db, s.PhaseOf(t).act).Some?)
    ensures var s', m := Step(s, e, true), s.PhaseOf(t).act.member;
            && s'.PhaseOf(t) == Idle && m !in s'.locks
            && (forall n | n != m :: n in s'.locks <==> n in s.locks)
            && forall n | n in s'.locks :: s'.locks[n] == s.locks[n]
  {
  }

  /** Without the lock two removals that each saw the other's household strand the member. */
  lemma UnlockedRaceStrands() returns (s: System, events: seq<Event>, m: MemberId)
    ensures Inv(s) && InHousehold(s.db, m) && !InHousehold(Run(s, events, false).db, m)
  {
    m := 1;
    s := System(TwoHouseholds({(1, 10), (1, 20)}), map[], map[]);
    events := [Begin(0, Remove(1, 10)), Begin(1, Remove(1, 20)), Verify(0), Verify(1), Write(0), Write(1)];
    assert (1, 10) in s.db.memberships;
    assert 10 in PodsOf(s.db, 1);
    BothPassTheCheck(s);
    BothAreWritten(Step(Step(Step(Step(s, events[0], false), events[1], false), events[2], false), events[3], false));
    RunOfSix(s, events);
  }

  lemma RunOfSix(s: System, e: seq<Event>)
    requires |e| == 6
    ensures var s3 := Step(Step(Step(s, e[0], false), e[1], false), e[2], false);
            Run(s, e, false) == Step(Step(Step(s3, e[3], false), e[4], false), e[5], false)
  {
    var e1, e2, e3 := e[1..], e[1..][1..], e[1..][1..][1..];
    assert e1[0] == e[1] && e2[0] == e[2] && e3[0] == e[3] && e3[1..][0] == e[4] && e3[1..][1..][0] == e[5];
    assert e3[1..][1..][1..] == [];
    var s3 := Step(Step(Step(s, e[0], false), e[1], false), e[2], false);
    var s1 := Step(s, e[0], false);
    assert Run(s, e, false) == Run(s1, e1, false) == Run(Step(s1, e1[0], false), e2, false) == Run(s3, e3, false);
    var s4 := Step(s3, e[3], false);
    assert Run(s3, e3, false) == Run(s4, e3[1..], false) == Run(Step(s4, e[4], false), e3[1..][1..], false);
  }

  // ----- The service, one transaction each -----

  class Service {
    var db: Db

    /** Lock, authorize, check, write, record. A refusal, for whichever reason, changes nothing - not
        even the household a refused creation had already made. */
    method CarryOut(a: Act, may: bool) returns (refused: Option<Refusal>)
      requires Possible(db, a)
      modifies this
      ensures refused == if a.Create? && Check(old(db), a).Some? then Check(old(db), a)
                         else if !may then Some(PermissionDenied) else Check(old(db), a)
      ensures db == if refused.None? then Written(old(db), a) else old(db)
      ensures refused.None? ==> CarriedOut(old(db), a, db)
      ensures refused == RefusedBecause(old(db), a, may)
    {
      refused := None;
      WrittenIsCarriedOut(db, a);
      if a.Remove? {
        LastMeansNone(db, a.member, a.pod);
      }
      match a
      case Add(m, p) =>
        if !may { return Some(PermissionDenied); }
        if (m, p) in db.memberships { return Some(AlreadyIn); }
        db := db.(memberships := db.memberships + {(m, p)});
        db := db.(ledger := db.ledger + [Added(m, p)]);
      case Create(m, name, yards, p) =>
        if name == "" { return Some(NoName); }
        if yards == [] { return Some(NoSide); }
        var savepoint := db;
        db := db.(pods := db.pods[p := Pod(true, yards)]);
        if !may {
          db := savepoint;
          return Some(PermissionDenied);
        }
        db := db.(memberships := db.memberships + {(m, p)});
        db := db.(ledger := db.ledger + [Added(m, p)]);
      case Remove(m, p) =>
        if !may { return Some(PermissionDenied); }
        if (m, p) !in db.memberships { return Some(NotIn); }
        if IsTheirLastHousehold(db, m, p) { return Some(LastHousehold); }
        var losing := Elements(SidesLost(db, m, p));
        db := db.(shrinks := db.shrinks + [(m, losing)]);
        db := db.(memberships := db.memberships - {(m, p)});
        db := db.(ledger := db.ledger + [Removed(m, p)]);
    }
  }
}
