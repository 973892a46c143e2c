/** Email Updates as one state: subscriptions, issues, tokens and deliveries (the database, which
    rolls back), and what has left the building (which does not). Tokens are fresh numbers and the
    digest at rest is an ideal hash of one. */
module DigestStore {
  import opened Wrappers
  import opened Text

  type Time = int
  type MemberId = nat
  type YardId = nat

  /** A digest column: empty, or the hash of a raw token. */
  datatype Hash = Empty | HashOf(raw: nat)

  datatype Subscription = Subscription(
    address: string, cadence: string, enabled: bool, confirmedAt: Option<Time>,
    confirmHash: Hash, unsubscribeHash: Hash)

  datatype Issue = Issue(member: MemberId, yard: YardId, start: Time, end: Time)

  datatype Delivery = HandedToRelay(issue: Issue) | Rejected(issue: Issue)

  datatype ReadToken = ReadToken(issue: Issue, hash: Hash)

  datatype Db = Db(
    subscriptions: map<MemberId, Subscription>, issues: seq<Issue>, tokens: seq<ReadToken>,
    deliveries: seq<Delivery>)

  /** A member's own primary sign-in address. */
  datatype SignIn = SignIn(email: string, verified: bool)

  datatype Mail =
    | Confirmation(to: string, member: MemberId, raw: nat)
    | Content(to: string, member: MemberId, issue: Issue, unsubscribeRaw: nat)

  /** `outbox` is every message handed over, `proven` every (member, mailbox) somebody has shown
      control of, `nextRaw` the first token value not drawn yet. */
  datatype State = State(
    db: Db, signIn: map<MemberId, SignIn>, outbox: seq<Mail>, proven: set<(MemberId, string)>, nextRaw: nat)

  // ----- Windows -----

  /** The issues of one (member, yard), oldest first. */
  function IssuesOf(issues: seq<Issue>, m: MemberId, y: YardId): seq<Issue> {
    if issues == [] then []
    else
      var last := issues[|issues| - 1];
      IssuesOf(issues[..|issues| - 1], m, y) + if last.member == m && last.yard == y then [last] else []
  }

  lemma IssuesOfSnoc(issues: seq<Issue>, i: Issue, m: MemberId, y: YardId)
    ensures IssuesOf(issues + [i], m, y)
         == IssuesOf(issues, m, y) + if i.member == m && i.yard == y then [i] else []
  {
    assert (issues + [i])[..|issues|] == issues;
  }

  /** Non-empty windows, each starting where the previous one ended. */
  ghost predicate Chain(s: seq<Issue>) {
    && (forall i | 0 <= i < |s| :: s[i].start < s[i].end)
    && (forall i | 0 < i < |s| :: s[i].start == s[i - 1].end)
  }

  lemma {:induction false} ChainIsOrdered(s: seq<Issue>, i: nat, j: nat)
    requires Chain(s) && i < j < |s|
    ensures s[i].end <= s[j].start
  {
    if i + 1 < j {
      ChainIsOrdered(s, i, j - 1);
    }
  }

  function Covers(i: Issue, t: Time): bool { i.start <= t < i.end }

  /** In a chain every moment of the covered range is in exactly one window. */
  lemma {:induction false} ChainTiles(s: seq<Issue>, t: Time) returns (k: nat)
    requires Chain(s) && s != [] && s[0].start <= t < s[|s| - 1].end
    ensures k < |s| && Covers(s[k], t) && forall j | 0 <= j < |s| && Covers(s[j], t) :: j == k
  {
    var last := |s| - 1;
    if s[last].start <= t {
      k := last;
    } else {
      assert last > 0;
      k := ChainTiles(s[..last], t);
    }
    forall j | 0 <= j < |s| && Covers(s[j], t) ensures j == k {
      if j < k {
        ChainIsOrdered(s, j, k);
      } else if k < j {
        ChainIsOrdered(s, k, j);
      }
    }
  }

  // ----- What holds in every reachable state -----

  ghost predicate FreshIn(s: State, h: Hash) { h.HashOf? ==> h.raw < s.nextRaw }

  /** Live tokens were drawn, and no two subscriptions share one. */
  ghost predicate TokensInv(s: State) {
    var subs := s.db.subscriptions;
    && (forall m | m in subs :: FreshIn(s, subs[m].confirmHash) && FreshIn(s, subs[m].unsubscribeHash))
    && (forall m, n | m in subs && n in subs && m != n ::
          && (subs[m].confirmHash == subs[n].confirmHash ==> subs[m].confirmHash == Empty)
          && (subs[m].unsubscribeHash == subs[n].unsubscribeHash ==> subs[m].unsubscribeHash == Empty))
    && (forall mail | mail in s.outbox :: mail.Confirmation? ==> mail.raw < s.nextRaw)
  }

  /** Confirmation before content: a confirmed subscription points at a mailbox its member has been
      shown to control, a live confirm token went to the current address and nowhere else, and no
      content ever left for a mailbox nobody had proven. */
  ghost predicate ConsentInv(s: State) {
    var subs := s.db.subscriptions;
    && (forall m | m in subs && subs[m].confirmedAt.Some? :: (m, Lower(subs[m].address)) in s.proven)
    && (forall m | m in subs && subs[m].confirmHash.HashOf? :: subs[m].confirmedAt.None?)
    && (forall m, mail | m in subs && mail in s.outbox && mail.Confirmation?
                         && subs[m].confirmHash == HashOf(mail.raw) ::
          mail.member == m && mail.to == subs[m].address)
    && (forall m | m in s.signIn && s.signIn[m].verified :: (m, Lower(s.signIn[m].email)) in s.proven)
    && (forall mail | mail in s.outbox && mail.Content? :: (mail.member, Lower(mail.to)) in s.proven)
  }

  ghost predicate WindowsInv(s: State) {
    forall m, y :: Chain(IssuesOf(s.db.issues, m, y))
  }

  ghost predicate Inv(s: State) {
    TokensInv(s) && ConsentInv(s) && WindowsInv(s)
  }

  class Store {
    var s: State
  }
}
