/** The confirm step: a single-use nonce says a confirm page was shown, a fingerprint of what that
    page said binds the act to it. SHA-256 is ideal: a digest is the text it was taken of. */
module HouseholdConfirm {
  import opened Wrappers
  import Text

  datatype Word = Add | Create | Remove
  {
    function Spelled(): string {
      match this
      case Add => "add"
      case Create => "create"
      case Remove => "remove"
    }
  }

  /** One act, resolved but not carried out, and what its page says of it. */
  datatype Proposal = Proposal(
    act: Word, pod: Option<nat>, name: string, yards: seq<nat>, gained: seq<nat>, lost: seq<nat>)

  function IdList(ids: seq<nat>): string {
    if ids == [] then ""
    else if |ids| == 1 then Text.Decimal(ids[0])
    else Text.Decimal(ids[0]) + [','] + IdList(ids[1..])
  }

  function PodText(pod: Option<nat>): string {
    if pod.Some? then Text.Decimal(pod.value) else ""
  }

  /** The six parts joined by '|'. The name is whatever somebody typed, '|' included. */
  function FingerprintText(p: Proposal): string {
    p.act.Spelled() + ['|'] + (PodText(p.pod) + ['|'] + (p.name + ['|'] + IdList(p.yards) + ['|']
      + IdList(p.gained) + ['|'] + IdList(p.lost)))
  }

  lemma {:induction false} IdListIsPlain(ids: seq<nat>)
    ensures '|' !in IdList(ids)
    ensures IdList(ids) == "" <==> ids == []
    ensures ',' in IdList(ids) <==> |ids| > 1
  {
    if |ids| > 1 {
      IdListIsPlain(ids[1..]);
      assert IdList(ids)[|Text.Decimal(ids[0])|] == ',';
    }
  }

  lemma {:induction false} IdListInjective(a: seq<nat>, b: seq<nat>)
    requires IdList(a) == IdList(b)
    ensures a == b
  {
    IdListIsPlain(a);
    IdListIsPlain(b);
    if |a| > 1 {
      Text.SplitAtFirst(Text.Decimal(a[0]), IdList(a[1..]), Text.Decimal(b[0]), IdList(b[1..]), ',');
      Text.DecimalInjective(a[0], b[0]);
      IdListInjective(a[1..], b[1..]);
      assert a == [a[0]] + a[1..] && b == [b[0]] + b[1..];
    } else if |a| == 1 {
      Text.DecimalInjective(a[0], b[0]);
    }
  }

  /** Two proposals with one fingerprint are one proposal, whatever the household is called: the act
      and the pod are cut off from the left, the three lists from the right, and the name is the rest. */
  lemma FingerprintInjective(p: Proposal, q: Proposal)
    requires FingerprintText(p) == FingerprintText(q)
    ensures p == q
  {
    IdListIsPlain(p.yards);
    IdListIsPlain(q.yards);
    IdListIsPlain(p.gained);
    IdListIsPlain(q.gained);
    IdListIsPlain(p.lost);
    IdListIsPlain(q.lost);
    var pName, qName := p.name + ['|'] + IdList(p.yards), q.name + ['|'] + IdList(q.yards);
    var pGained, qGained := pName + ['|'] + IdList(p.gained), qName + ['|'] + IdList(q.gained);
    var pLost, qLost := pGained + ['|'] + IdList(p.lost), qGained + ['|'] + IdList(q.lost);
    var pPod, qPod := PodText(p.pod) + ['|'] + pLost, PodText(q.pod) + ['|'] + qLost;
    Text.SplitAtFirst(p.act.Spelled(), pPod, q.act.Spelled(), qPod, '|');
    Text.SplitAtFirst(PodText(p.pod), pLost, PodText(q.pod), qLost, '|');
    Text.SplitAtLast(pGained, IdList(p.lost), qGained, IdList(q.lost), '|');
    Text.SplitAtLast(pName, IdList(p.gained), qName, IdList(q.gained), '|');
    Text.SplitAtLast(p.name, IdList(p.yards), q.name, IdList(q.yards), '|');
    SpellingInjective(p.act, q.act);
    PodTextInjective(p.pod, q.pod);
    IdListInjective(p.yards, q.yards);
    IdListInjective(p.gained, q.gained);
    IdListInjective(p.lost, q.lost);
  }

  lemma SpellingInjective(a: Word, b: Word)
    requires a.Spelled() == b.Spelled()
    ensures a == b
  {
    assert a.Spelled()[0] == b.Spelled()[0];
  }

  lemma PodTextInjective(a: Option<nat>, b: Option<nat>)
    requires PodText(a) == PodText(b)
    ensures a == b
  {
    if a.Some? && b.Some? {
      Text.DecimalInjective(a.value, b.value);
    }
  }

  // ----- The session, one request at a time (HouseholdSession lets requests overlap) -----

  type Target = nat
  type Nonce = nat

  /** A confirm page as rendered, and an act as carried out: for which page, out of how many rendered
      in this session by then. */
  datatype Page = Page(target: Target, proposal: Proposal, nonce: Nonce)
  datatype Executed = Executed(target: Target, proposal: Proposal, page: nat, pagesThen: nat)

  /** The session's two keys per person, and its history. Nonces are fresh. */
  datatype Session = Session(
    shown: map<Target, string>, intent: map<Target, Nonce>, pages: seq<Page>, executed: seq<Executed>,
    nextNonce: Nonce)

  /** Whether this submit is the confirmation: the fingerprint matches what was shown, and the nonce
      is the one outstanding. */
  predicate Confirms(s: Session, target: Target, p: Proposal, submitted: Option<Nonce>) {
    && target in s.shown && s.shown[target] == FingerprintText(p)
    && submitted.Some? && target in s.intent && s.intent[target] == submitted.value
  }

  /** The page the outstanding nonce came from. */
  ghost function PageOf(s: Session, target: Target): nat
    requires target in s.intent && exists i: nat :: i < |s.pages| && s.pages[i].nonce == s.intent[target]
  {
    var i: nat :| i < |s.pages| && s.pages[i].nonce == s.intent[target];
    i
  }

  ghost predicate HasPage(s: Session, target: Target) {
    target in s.intent && exists i: nat :: i < |s.pages| && s.pages[i].nonce == s.intent[target]
  }

  function Drop<V>(m: map<Target, V>, target: Target): map<Target, V> {
    map k | k in m && k != target :: m[k]
  }

  /** One POST: the act, a refusal, or a fresh confirm page. `refused` says whether the check the page
      asks first finds the act wrong. */
  ghost function Submitted(s: Session, target: Target, p: Proposal, submitted: Option<Nonce>, refused: bool): Session {
    if Confirms(s, target, p, submitted) then
      var page := if HasPage(s, target) then PageOf(s, target) else 0;
      s.(shown := Drop(s.shown, target), intent := Drop(s.intent, target),
         executed := s.executed + [Executed(target, p, page, |s.pages|)])
    else if refused then s
    else Rendered(s, target, p)
  }

  /** A confirm page, its nonce and the fingerprint of what it says. */
  function Rendered(s: Session, target: Target, p: Proposal): Session {
    s.(shown := s.shown[target := FingerprintText(p)], intent := s.intent[target := s.nextNonce],
       pages := s.pages + [Page(target, p, s.nextNonce)], nextNonce := s.nextNonce + 1)
  }

  /** Page `i` is the newest of the first `n` for its person. */
  ghost predicate IsLatest(pages: seq<Page>, i: nat, n: nat) {
    i < n <= |pages| && forall j | i < j < n :: pages[j].target != pages[i].target
  }

  /** Page `i` is the one whose nonce is outstanding for `t`, still the newest, and not yet acted on. */
  ghost predicate Outstanding(s: Session, t: Target, i: nat) {
    && t in s.intent && i < |s.pages| && s.pages[i].nonce == s.intent[t] && s.pages[i].target == t
    && IsLatest(s.pages, i, |s.pages|)
    && t in s.shown && s.shown[t] == FingerprintText(s.pages[i].proposal)
    && forall k | 0 <= k < |s.executed| :: s.executed[k].page != i
  }

  ghost predicate NoncesInv(s: Session) {
    && (forall i | 0 <= i < |s.pages| :: s.pages[i].nonce < s.nextNonce)
    && (forall i, j | 0 <= i < j < |s.pages| :: s.pages[i].nonce != s.pages[j].nonce)
  }

  ghost predicate WasShown(s: Session, e: Executed) {
    IsLatest(s.pages, e.page, e.pagesThen)
    && s.pages[e.page].target == e.target && s.pages[e.page].proposal == e.proposal
  }

  ghost predicate EachOutstanding(s: Session) {
    forall t | t in s.intent :: exists i: nat :: Outstanding(s, t, i)
  }

  ghost predicate EachWasShown(s: Session) {
    forall k | 0 <= k < |s.executed| :: WasShown(s, s.executed[k])
  }

  ghost predicate OncePerPage(executed: seq<Executed>) {
    forall k, l | 0 <= k < l < |executed| :: executed[k].page != executed[l].page
  }

  ghost predicate Inv(s: Session) {
    NoncesInv(s) && EachOutstanding(s) && EachWasShown(s) && OncePerPage(s.executed)
  }

  function Acted(s: Session, target: Target, p: Proposal, page: nat): Session {
    s.(shown := Drop(s.shown, target), intent := Drop(s.intent, target),
       executed := s.executed + [Executed(target, p, page, |s.pages|)])
  }

  /** A submit that confirms does so for the outstanding page, and that page said just this. */
  lemma ConfirmedPage(s: Session, target: Target, p: Proposal, submitted: Option<Nonce>, refused: bool) returns (i: nat)
    requires Inv(s) && Confirms(s, target, p, submitted)
    ensures Outstanding(s, target, i) && s.pages[i].proposal == p
    ensures Submitted(s, target, p, submitted, refused) == Acted(s, target, p, i)
  {
    i :| Outstanding(s, target, i);
    assert HasPage(s, target);
    NonceNamesAPage(s, PageOf(s, target), i);
    FingerprintInjective(p, s.pages[i].proposal);
  }

  lemma NonceNamesAPage(s: Session, i: nat, j: nat)
    requires NoncesInv(s) && i < |s.pages| && j < |s.pages| && s.pages[i].nonce == s.pages[j].nonce
    ensures i == j
  {
  }

  lemma OutstandingAfterAct(s: Session, target: Target, p: Proposal, i: nat, t: Target, j: nat)
    requires Outstanding(s, target, i) && Outstanding(s, t, j) && t != target
    ensures Outstanding(Acted(s, target, p, i), t, j)
  {
  }

  lemma WasShownAfterAct(s: Session, target: Target, p: Proposal, i: nat, e: Executed)
    requires Outstanding(s, target, i) && s.pages[i].proposal == p
    requires WasShown(s, e) || e == Executed(target, p, i, |s.pages|)
    ensures WasShown(Acted(s, target, p, i), e)
  {
  }

  lemma ActingKeepsInv(s: Session, target: Target, p: Proposal, submitted: Option<Nonce>, refused: bool)
    requires Inv(s) && Confirms(s, target, p, submitted)
    ensures Inv(Submitted(s, target, p, submitted, refused))
  {
    var i := ConfirmedPage(s, target, p, submitted, refused);
    ActedKeepsInv(s, target, p, i);
  }

  lemma ActedKeepsOutstanding(s: Session, target: Target, p: Proposal, i: nat)
    requires EachOutstanding(s) && Outstanding(s, target, i)
    ensures EachOutstanding(Acted(s, target, p, i))
  {
    var s' := Acted(s, target, p, i);
    forall t | t in s'.intent ensures exists j: nat :: Outstanding(s', t, j) {
      var j: nat :| Outstanding(s, t, j);
      OutstandingAfterAct(s, target, p, i, t, j);
    }
  }

  lemma ActedKeepsShown(s: Session, target: Target, p: Proposal, i: nat)
    requires EachWasShown(s) && Outstanding(s, target, i) && s.pages[i].proposal == p
    ensures EachWasShown(Acted(s, target, p, i))
  {
    var s' := Acted(s, target, p, i);
    forall k | 0 <= k < |s'.executed| ensures WasShown(s', s'.executed[k]) {
      assert k < |s.executed| ==> s'.executed[k] == s.executed[k] && WasShown(s, s.executed[k]);
      WasShownAfterAct(s, target, p, i, s'.executed[k]);
    }
  }

  lemma ActedKeepsInv(s: Session, target: Target, p: Proposal, i: nat)
    requires Inv(s) && Outstanding(s, target, i) && s.pages[i].proposal == p
    ensures Inv(Acted(s, target, p, i))
  {
    ActedKeepsOutstanding(s, target, p, i);
    ActedKeepsShown(s, target, p, i);
    assert OncePerPage(Acted(s, target, p, i).executed);
  }

  lemma WasShownStays(s: Session, target: Target, p: Proposal, e: Executed)
    requires WasShown(s, e)
    ensures WasShown(Rendered(s, target, p), e) && e.page < |s.pages|
  {
  }

  lemma OutstandingAfterRender(s: Session, target: Target, p: Proposal, t: Target, i: nat)
    requires Outstanding(s, t, i) && t != target
    ensures Outstanding(Rendered(s, target, p), t, i)
  {
  }

  lemma RenderingKeepsInv(s: Session, target: Target, p: Proposal)
    requires Inv(s)
    ensures Inv(Rendered(s, target, p))
  {
    var s' := Rendered(s, target, p);
    forall k | 0 <= k < |s.executed| ensures WasShown(s', s.executed[k]) && s.executed[k].page < |s.pages| {
      WasShownStays(s, target, p, s.executed[k]);
    }
    forall t | t in s'.intent ensures exists j: nat :: Outstanding(s', t, j) {
      if t == target {
        assert Outstanding(s', t, |s.pages|);
      } else {
        var j: nat :| Outstanding(s, t, j);
        OutstandingAfterRender(s, target, p, t, j);
      }
    }
    assert NoncesInv(s');
  }

  lemma SubmitKeepsInv(s: Session, target: Target, p: Proposal, submitted: Option<Nonce>, refused: bool)
    requires Inv(s)
    ensures Inv(Submitted(s, target, p, submitted, refused))
  {
    if Confirms(s, target, p, submitted) {
      ActingKeepsInv(s, target, p, submitted, refused);
    } else if !refused {
      RenderingKeepsInv(s, target, p);
    }
  }

  datatype Post = Post(target: Target, proposal: Proposal, submitted: Option<Nonce>, refused: bool)

  ghost function Run(s: Session, posts: seq<Post>): Session
    decreases |posts|
  {
    if posts == [] then s
    else
      var a := posts[0];
      Run(Submitted(s, a.target, a.proposal, a.submitted, a.refused), posts[1..])
  }

  lemma {:induction false} EveryRunKeepsInv(s: Session, posts: seq<Post>)
    requires Inv(s)
    ensures Inv(Run(s, posts))
    decreases |posts|
  {
    if posts != [] {
      var a := posts[0];
      SubmitKeepsInv(s, a.target, a.proposal, a.submitted, a.refused);
      EveryRunKeepsInv(Submitted(s, a.target, a.proposal, a.submitted, a.refused), posts[1..]);
    }
  }

  const NEW_SESSION := Session(map[], map[], [], [], 0)

  /** A page shown and then confirmed by its nonce acts, if it says what it said; under any other wording,
      nonce or person it does not. */
  lemma ShownPageConfirms(s: Session, target: Target, p: Proposal, q: Proposal, other: Target, nonce: Option<Nonce>)
    ensures var shown := Rendered(s, target, p);
            && shown.pages[|s.pages|] == Page(target, p, s.nextNonce)
            && Confirms(shown, target, p, Some(s.nextNonce))
            && (Confirms(shown, target, q, nonce) ==> q == p && nonce == Some(s.nextNonce))
            && (other != target ==> (Confirms(shown, other, q, nonce) <==> Confirms(s, other, q, nonce)))
  {
    if FingerprintText(q) == FingerprintText(p) {
      FingerprintInjective(q, p);
    }
  }

  /** Whatever is posted, in whatever order, one request after another: every act carried out is, word
      for word, the proposal of the newest confirm page shown for that person by then, and no page
      authorises two acts. */
  lemma ActsAreWhatWasShown(posts: seq<Post>, k: nat)
    requires k < |Run(NEW_SESSION, posts).executed|
    ensures var s := Run(NEW_SESSION, posts);
            var e := s.executed[k];
            && IsLatest(s.pages, e.page, e.pagesThen)
            && s.pages[e.page].target == e.target && s.pages[e.page].proposal == e.proposal
            && forall l | 0 <= l < |s.executed| && l != k :: s.executed[l].page != e.page
  {
    EveryRunKeepsInv(NEW_SESSION, posts);
  }

  // ----- The view and the hand-over helpers -----

  datatype Response = ConfirmPage(nonce: Nonce) | CarriedOut | Choices

  class View {
    var shown: map<Target, string>
    var intent: map<Target, Nonce>
    var nextNonce: Nonce
    ghost var pages: seq<Page>
    ghost var executed: seq<Executed>

    ghost function State(): Session
      reads this
    {
      Session(shown, intent, pages, executed, nextNonce)
    }

    /** A new single-use nonce for the next act on this person. */
    method FreshIntent(target: Target) returns (nonce: Nonce)
      modifies this
      ensures nonce == old(nextNonce)
      ensures State() == old(State()).(intent := old(intent)[target := nonce], nextNonce := nonce + 1)
    {
      nonce := nextNonce;
      intent := intent[target := nonce];
      nextNonce := nonce + 1;
    }

    /** True exactly for the outstanding nonce, which is then spent. */
    method ConsumeIntent(target: Target, submitted: Option<Nonce>) returns (ok: bool)
      modifies this
      ensures ok <==> submitted.Some? && target in old(intent) && old(intent)[target] == submitted.value
      ensures State() == if ok then old(State()).(intent := Drop(old(intent), target)) else old(State())
    {
      if submitted.None? || target !in intent || submitted.value != intent[target] { return false; }
      intent := Drop(intent, target);
      return true;
    }

    /** One request, on the session as it loaded it. The fingerprint is compared first, so a mismatch does
        not spend the nonce. `refused` is the answer of the check a confirm page is preceded by. */
    method ChangeHousehold(target: Target, p: Proposal, submitted: Option<Nonce>, refused: bool)
      returns (response: Response)
      modifies this
      ensures State() == Submitted(old(State()), target, p, submitted, refused)
      ensures response.CarriedOut? <==> Confirms(old(State()), target, p, submitted)
      ensures response.ConfirmPage? <==> !Confirms(old(State()), target, p, submitted) && !refused
      ensures response.ConfirmPage? ==> target in intent && intent[target] == response.nonce
    {
      ghost var page := if HasPage(State(), target) then PageOf(State(), target) else 0;
      if target in shown && shown[target] == FingerprintText(p) {
        var ok := ConsumeIntent(target, submitted);
        if ok {
          shown := Drop(shown, target);
          executed := executed + [Executed(target, p, page, |pages|)];
          return CarriedOut;
        }
      }
      if refused { return Choices; }
      shown := shown[target := FingerprintText(p)];
      var nonce := FreshIntent(target);
      pages := pages + [Page(target, p, nonce)];
      return ConfirmPage(nonce);
    }
  }
}
