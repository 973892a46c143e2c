/** Weekly connection health: counts per yard, and one yes or no per member that must not depend on
    which yard's rollup wrote it last. */
module Metrics {
  import opened Collections

  type Id = nat
  type Time = int

  const WEEK := 7 * 24 * 60 * 60

  datatype Post = Post(id: Id, author: Id, pod: Id, audience: set<Id>, deleted: bool, created: Time)
  datatype Comment = Comment(id: Id, author: Id, post: Id, deleted: bool, viaEmail: bool, created: Time)
  datatype Reaction = Reaction(member: Id, post: Id, created: Time)
  datatype Opening = Opening(member: Id, yard: Id, firstUsed: Time)

  datatype Db = Db(
    members: set<Id>, memberships: set<(Id, Id)>, podYards: set<(Id, Id)>, lastSeen: map<Id, Time>,
    posts: set<Post>, comments: set<Comment>, reactions: set<Reaction>, openings: set<Opening>)

  predicate InWeek(t: Time, start: Time) { start <= t < start + WEEK }

  function MembersOf(db: Db, yard: Id): set<Id> {
    set m, e | m in db.members && e in db.memberships && e.0 == m && (e.1, yard) in db.podYards :: m
  }

  /** THE in-yard predicate: addressed to the yard, or pod-only in a pod of it. */
  predicate InYard(db: Db, p: Post, yard: Id) {
    yard in p.audience || (p.audience == {} && (p.pod, yard) in db.podYards)
  }

  function WeekPosts(db: Db, yard: Id, start: Time): set<Post> {
    set p | p in db.posts && !p.deleted && InWeek(p.created, start) && InYard(db, p, yard)
  }

  function Visited(db: Db, yard: Id, start: Time): set<Id> {
    set m | m in MembersOf(db, yard) && m in db.lastSeen && InWeek(db.lastSeen[m], start)
  }

  /** Everything that counts as a touch, as one yard's rollup gathers it: what was posted and who
      visited are filtered to this yard's members, the other three are not. */
  function Touched(db: Db, yard: Id, start: Time): set<Id> {
    (set p | p in db.posts && p.author in MembersOf(db, yard) && !p.deleted && InWeek(p.created, start) :: p.author)
    + (set c | c in db.comments && !c.deleted && InWeek(c.created, start) :: c.author)
    + (set r | r in db.reactions && InWeek(r.created, start) :: r.member)
    + Visited(db, yard, start)
    + (set o | o in db.openings && InWeek(o.firstUsed, start) :: o.member)
  }

  /** Somebody other than the author answered within a week of the post. */
  predicate IsAnswered(db: Db, p: Post) {
    || (exists c | c in db.comments ::
          c.post == p.id && !c.deleted && c.created < p.created + WEEK && c.author != p.author)
    || (exists r | r in db.reactions ::
          r.post == p.id && r.created < p.created + WEEK && r.member != p.author)
  }

  function Openers(db: Db, yard: Id, start: Time): set<Id> {
    set o | o in db.openings && o.yard == yard && InWeek(o.firstUsed, start) :: o.member
  }

  function EmailReplies(db: Db, yard: Id, start: Time): set<Comment> {
    set c | c in db.comments && c.viaEmail && !c.deleted && InWeek(c.created, start)
            && c.author in MembersOf(db, yard)
            && exists p | p in db.posts :: p.id == c.post && InYard(db, p, yard)
  }

  datatype YardRow = YardRow(
    memberCount: nat, wcm: nat, postingBreadth: nat, postsInWeek: nat, postsResponded: nat,
    catchUpMembers: nat, digestOpens: nat, emailReplies: nat)

  function Answered(db: Db, posts: set<Post>): set<Post> {
    set p | p in posts && IsAnswered(db, p)
  }

  function RowOf(db: Db, yard: Id, start: Time): YardRow {
    var members, posts := MembersOf(db, yard), WeekPosts(db, yard, start);
    YardRow(|members|, |Touched(db, yard, start) * members|, |set p | p in posts :: p.pod|, |posts|,
            |Answered(db, posts)|, |Visited(db, yard, start)|, |Openers(db, yard, start) * members|,
            |EmailReplies(db, yard, start)|)
  }

  /** The presence rows and the yard rows of one week. */
  datatype Tables = Tables(presence: map<Id, bool>, yards: map<Id, YardRow>)

  function PresenceRows(db: Db, yard: Id, start: Time): map<Id, bool> {
    map m | m in MembersOf(db, yard) :: m in Touched(db, yard, start)
  }

  /** `update_or_create` for every member of the yard and for the yard. */
  function RolledUp(db: Db, t: Tables, yard: Id, start: Time): Tables {
    Tables(t.presence + PresenceRows(db, yard, start), t.yards[yard := RowOf(db, yard, start)])
  }

  function RolledUpAll(db: Db, t: Tables, yards: seq<Id>, start: Time): Tables {
    if yards == [] then t
    else RolledUp(db, RolledUpAll(db, t, yards[..|yards| - 1], start), yards[|yards| - 1], start)
  }

  // ----- What counts -----

  /** A comment answers a post exactly when somebody else made it, within seven days of the post, and it was
      not deleted; the author's own and the late ones change nothing. */
  lemma CommentAnswersExactly(db: Db, p: Post, c: Comment)
    ensures IsAnswered(db.(comments := db.comments + {c}), p) <==>
            || IsAnswered(db, p)
            || (c.post == p.id && c.author != p.author && !c.deleted && c.created < p.created + 604800)
  {
    var more := db.(comments := db.comments + {c});
    if IsAnswered(more, p) && !IsAnswered(db, p) {
      var d :| d in more.comments && d.post == p.id
               && !d.deleted && d.created < p.created + WEEK && d.author != p.author;
      assert d == c;
    }
    if d :| d in db.comments && d.post == p.id
            && !d.deleted && d.created < p.created + WEEK && d.author != p.author {
      assert d in more.comments;
    }
    assert c in more.comments;
  }

  lemma ReactionAnswersExactly(db: Db, p: Post, r: Reaction)
    ensures IsAnswered(db.(reactions := db.reactions + {r}), p) <==>
            IsAnswered(db, p) || (r.post == p.id && r.member != p.author && r.created < p.created + 604800)
  {
    var more := db.(reactions := db.reactions + {r});
    if IsAnswered(more, p) && !IsAnswered(db, p) {
      var d :| d in more.reactions && d.post == p.id && d.created < p.created + WEEK && d.member != p.author;
      assert d == r;
    }
    if d :| d in db.reactions && d.post == p.id && d.created < p.created + WEEK && d.member != p.author {
      assert d in more.reactions;
    }
    assert r in more.reactions;
  }

  lemma NothingAnswersAlone(db: Db, p: Post)
    requires db.comments == {} && db.reactions == {}
    ensures !IsAnswered(db, p)
  {
  }

  /** Only what happened from the Monday on and before the next one counts as that week's. */
  lemma WeekHasItsEdges(db: Db, yard: Id, start: Time)
    ensures forall p :: p in WeekPosts(db, yard, start) <==>
              && p in db.posts && !p.deleted && start <= p.created && p.created < start + 604800
              && (yard in p.audience || (p.audience == {} && (p.pod, yard) in db.podYards))
    ensures forall m | m in MembersOf(db, yard) ::
              m in Visited(db, yard, start) <==>
              m in db.lastSeen && start <= db.lastSeen[m] && db.lastSeen[m] < start + 604800
  {
  }

  /** Members of a yard come by a pod of it, and once however many. */
  lemma MembersAreSeated(db: Db, yard: Id, m: Id)
    ensures m in MembersOf(db, yard) <==>
            m in db.members && exists p :: (m, p) in db.memberships && (p, yard) in db.podYards
  {
    if m in MembersOf(db, yard) {
      var e :| e in db.memberships && e.0 == m && (e.1, yard) in db.podYards;
      assert (m, e.1) in db.memberships;
    }
    if p :| (m, p) in db.memberships && (p, yard) in db.podYards {
      assert (m, p).0 == m;
    }
  }

  /** A member of the yard who was there in the week. */
  ghost predicate Seated(db: Db, yard: Id, m: Id) {
    m in db.members && exists p :: (m, p) in db.memberships && (p, yard) in db.podYards
  }

  /** What the other numbers count, each once: the members who were present anywhere, the pods that were
      posted in, the members who opened an issue of this yard, and the replies by email from its members to
      posts in it. */
  lemma NumbersCount(db: Db, yard: Id, start: Time)
    returns (present: set<Id>, pods: set<Id>, openers: set<Id>, replies: set<Comment>)
    ensures var r := RowOf(db, yard, start);
            && r.wcm == |present| && r.postingBreadth == |pods|
            && r.digestOpens == |openers| && r.emailReplies == |replies|
    ensures forall m :: m in present <==> Seated(db, yard, m) && Present(db, m, start)
    ensures forall q :: q in pods <==> exists p :: p in WeekPosts(db, yard, start) && p.pod == q
    ensures forall m :: m in openers <==>
              Seated(db, yard, m)
              && exists o :: o in db.openings && o.member == m && o.yard == yard && InWeek(o.firstUsed, start)
    ensures forall c :: c in replies <==>
              && c in db.comments && c.viaEmail && !c.deleted && InWeek(c.created, start) && Seated(db, yard, c.author)
              && exists p :: p in db.posts && p.id == c.post
                             && (yard in p.audience || (p.audience == {} && (p.pod, yard) in db.podYards))
  {
    var members := MembersOf(db, yard);
    forall m ensures m in members <==> Seated(db, yard, m) {
      MembersAreSeated(db, yard, m);
    }
    present := Touched(db, yard, start) * members;
    pods := set p | p in WeekPosts(db, yard, start) :: p.pod;
    openers := Openers(db, yard, start) * members;
    replies := EmailReplies(db, yard, start);
    forall m | m in members ensures m in Touched(db, yard, start) <==> Present(db, m, start) {
      PresenceIsYardIndependent(db, yard, m, start);
    }
  }

  // ----- Order does not matter -----

  /** A touch anywhere, whichever yard asks. */
  predicate Present(db: Db, m: Id, start: Time) {
    || (exists p | p in db.posts :: p.author == m && !p.deleted && InWeek(p.created, start))
    || (exists c | c in db.comments :: c.author == m && !c.deleted && InWeek(c.created, start))
    || (exists r | r in db.reactions :: r.member == m && InWeek(r.created, start))
    || (m in db.lastSeen && InWeek(db.lastSeen[m], start))
    || (exists o | o in db.openings :: o.member == m && InWeek(o.firstUsed, start))
  }

  /** Presence is yard-independent, although two of its inputs are filtered by yard. */
  lemma PresenceIsYardIndependent(db: Db, yard: Id, m: Id, start: Time)
    requires m in MembersOf(db, yard)
    ensures m in Touched(db, yard, start) <==> Present(db, m, start)
  {
  }

  function MembersOfAll(db: Db, yards: set<Id>): set<Id> {
    set y, m | y in yards && m in MembersOf(db, y) :: m
  }

  function Constant<V>(keys: set<Id>, f: Id -> V): map<Id, V> {
    map k | k in keys :: f(k)
  }

  /** What a set of yards leaves behind, with no order in it. */
  function Overlay(db: Db, t: Tables, yards: set<Id>, start: Time): Tables {
    Tables(t.presence + Constant(MembersOfAll(db, yards), m => Present(db, m, start)),
           t.yards + Constant(yards, y => RowOf(db, y, start)))
  }

  lemma OverlaysMerge<V>(base: map<Id, V>, a: set<Id>, b: set<Id>, f: Id -> V)
    ensures (base + Constant(a, f)) + Constant(b, f) == base + Constant(a + b, f)
  {
  }

  lemma PresenceRowsAreGlobal(db: Db, yard: Id, start: Time)
    ensures PresenceRows(db, yard, start) == Constant(MembersOf(db, yard), m => Present(db, m, start))
  {
    forall m | m in MembersOf(db, yard) ensures m in Touched(db, yard, start) <==> Present(db, m, start) {
      PresenceIsYardIndependent(db, yard, m, start);
    }
  }

  lemma OverlayNext(db: Db, t: Tables, yards: set<Id>, start: Time, y: Id)
    ensures RolledUp(db, Overlay(db, t, yards, start), y, start) == Overlay(db, t, yards + {y}, start)
  {
    var present, row := m => Present(db, m, start), k => RowOf(db, k, start);
    PresenceRowsAreGlobal(db, y, start);
    OverlaysMerge(t.presence, MembersOfAll(db, yards), MembersOf(db, y), present);
    MembersOfMore(db, yards, y);
    OverlaysMerge(t.yards, yards, {y}, row);
    RowUpsert(t.yards + Constant(yards, row), y, row);
  }

  lemma MembersOfMore(db: Db, yards: set<Id>, y: Id)
    ensures MembersOfAll(db, yards + {y}) == MembersOfAll(db, yards) + MembersOf(db, y)
  {
    assert y in yards + {y};
  }

  lemma RowUpsert<V>(base: map<Id, V>, y: Id, f: Id -> V)
    ensures base[y := f(y)] == base + Constant({y}, f)
  {
  }

  lemma OverlayOfNone(db: Db, t: Tables, start: Time)
    ensures Overlay(db, t, {}, start) == t
  {
    assert MembersOfAll(db, {}) == {};
  }

  lemma {:induction false} RollupsOverlay(db: Db, t: Tables, yards: seq<Id>, start: Time)
    ensures RolledUpAll(db, t, yards, start) == Overlay(db, t, Elements(yards), start)
  {
    if yards == [] {
      OverlayOfNone(db, t, start);
      assert Elements(yards) == {};
    } else {
      var last := |yards| - 1;
      RollupsOverlay(db, t, yards[..last], start);
      OverlayNext(db, t, Elements(yards[..last]), start, yards[last]);
      ElementsSnoc(yards);
    }
  }

  /** Rolling up the same yards for one week, in any order and with any repeats, leaves the same
      presence rows and the same yard rows. */
  lemma OrderAndRepeatsDoNotMatter(db: Db, t: Tables, a: seq<Id>, b: seq<Id>, start: Time)
    requires Elements(a) == Elements(b)
    ensures RolledUpAll(db, t, a, start) == RolledUpAll(db, t, b, start)
  {
    RollupsOverlay(db, t, a, start);
    RollupsOverlay(db, t, b, start);
  }

  lemma {:induction false} SmallerCount<T>(a: set<T>, b: set<T>)
    requires a <= b
    ensures |a| <= |b|
  {
    if a != {} {
      var x :| x in a;
      SmallerCount(a - {x}, b - {x});
    }
  }

  /** The published numbers keep their bounds. */
  lemma RowBounds(db: Db, yard: Id, start: Time)
    ensures var r := RowOf(db, yard, start);
            && r.wcm <= r.memberCount && r.digestOpens <= r.memberCount && r.catchUpMembers <= r.wcm
            && r.postsResponded <= r.postsInWeek
  {
    var members := MembersOf(db, yard);
    SmallerCount(Touched(db, yard, start) * members, members);
    SmallerCount(Openers(db, yard, start) * members, members);
    SmallerCount(Visited(db, yard, start), Touched(db, yard, start) * members);
    SmallerCount(Answered(db, WeekPosts(db, yard, start)), WeekPosts(db, yard, start));
  }

  class Rollups {
    var t: Tables

    /** One yard's week: the counting loop, then the upserts. */
    method RollupWeek(db: Db, yard: Id, start: Time) returns (row: YardRow)
      modifies this
      ensures t == RolledUp(db, old(t), yard, start) && row == RowOf(db, yard, start)
    {
      var members, posts := MembersOf(db, yard), WeekPosts(db, yard, start);
      var touched := Touched(db, yard, start);
      var responded := CountAnswered(db, posts);
      row := YardRow(|members|, |touched * members|, |set p | p in posts :: p.pod|, |posts|, responded,
                     |Visited(db, yard, start)|, |Openers(db, yard, start) * members|,
                     |EmailReplies(db, yard, start)|);
      var presence := UpsertPresence(t.presence, members, touched);
      t := Tables(presence, t.yards[yard := row]);
    }
  }

  method CountAnswered(db: Db, posts: set<Post>) returns (responded: nat)
    ensures responded == |Answered(db, posts)|
  {
    responded := 0;
    var todo := posts;
    while todo != {}
      invariant todo <= posts && responded == |Answered(db, posts - todo)|
      decreases todo
    {
      var p :| p in todo;
      assert Answered(db, posts - (todo - {p}))
          == Answered(db, posts - todo) + if IsAnswered(db, p) then {p} else {};
      if IsAnswered(db, p) { responded := responded + 1; }
      todo := todo - {p};
    }
    assert posts - {} == posts;
  }

  method UpsertPresence(before: map<Id, bool>, members: set<Id>, touched: set<Id>) returns (after: map<Id, bool>)
    ensures after == before + map m | m in members :: m in touched
  {
    after := before;
    var left := members;
    while left != {}
      invariant left <= members && after == before + map m | m in members - left :: m in touched
      decreases left
    {
      var m :| m in left;
      after := after[m := m in touched];
      left := left - {m};
    }
  }
}
