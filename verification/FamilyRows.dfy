/** The database as the rows a demo wipe can reach: who is in what, who wrote what, and which
    foreign keys cascade (a row goes with the row it points at) or are set to null. */
module FamilyRows {
  import opened Wrappers

  type Id = nat

  datatype Row =
    | Yard(slug: string, marker: string)
    | Pod(marker: string, owner: Option<Id>)
    | Member(marker: string, managingParent: Option<Id>)
    | PodYard(pod: Id, yard: Id)
    | Membership(member: Id, pod: Id)
    | Post(author: Id, pod: Id, deleted: bool, moderatedBy: Option<Id>)
    | PostYard(post: Id, yard: Id)
    | Comment(author: Id, post: Id, deleted: bool, moderatedBy: Option<Id>)
    | Media(onPost: Option<Id>, onComment: Option<Id>)
    | Reaction(member: Id, post: Id)
    | ProfilePhoto(member: Id)
      // Any other table: invites, mutes, digest issues, tokens, metrics, the household ledger, ...
    | Dependent(table: string, parents: set<Id>, mentions: set<Id>)
  {
    /** The three models that carry `seeded_by`. */
    predicate IsRoot() { Yard? || Pod? || Member? }

    /** Words: what the refusal protects. */
    predicate IsAuthored() { Post? || Comment? }

    predicate IsContent() { Post? || Comment? || Reaction? || Media? }

    /** The rows this one is deleted with: its CASCADE foreign keys. */
    function Parents(): set<Id> {
      match this
      case Yard(_, _) => {}
      case Pod(_, _) => {}
      case Member(_, _) => {}
      case PodYard(p, y) => {p, y}
      case Membership(m, p) => {m, p}
      case Post(a, p, _, _) => {a, p}
      case PostYard(p, y) => {p, y}
      case Comment(a, p, _, _) => {a, p}
      case Media(p, c) => Given(p) + Given(c)
      case Reaction(m, p) => {m, p}
      case ProfilePhoto(m) => {m}
      case Dependent(_, parents, _) => parents
    }

    /** The row after the rows in `gone` are deleted: its SET_NULL foreign keys to them are null. */
    function Forget(gone: set<Id>): Row {
      match this
      case Pod(m, o) => Pod(m, Unless(o, gone))
      case Member(m, p) => Member(m, Unless(p, gone))
      case Post(a, p, d, m) => Post(a, p, d, Unless(m, gone))
      case Comment(a, p, d, m) => Comment(a, p, d, Unless(m, gone))
      case Dependent(t, p, s) => Dependent(t, p, s - gone)
      case _ => this
    }

    function WithMarker(m: string): Row
      requires IsRoot()
    {
      match this
      case Yard(s, _) => Yard(s, m)
      case Pod(_, o) => Pod(m, o)
      case Member(_, p) => Member(m, p)
    }

    /** The model's label, as the preview and the receipt count by it. */
    function Label(): string {
      match this
      case Yard(_, _) => "core.Yard"
      case Pod(_, _) => "core.Pod"
      case Member(_, _) => "core.Member"
      case PodYard(_, _) => "core.Pod_yards"
      case Membership(_, _) => "core.PodMembership"
      case Post(_, _, _, _) => "core.Post"
      case PostYard(_, _) => "core.Post_audience_yards"
      case Comment(_, _, _, _) => "core.Comment"
      case Media(_, _) => "core.MediaAsset"
      case Reaction(_, _) => "core.Reaction"
      case ProfilePhoto(_) => "core.ProfilePhoto"
      case Dependent(table, _, _) => table
    }
  }

  function Given(o: Option<Id>): set<Id> {
    if o.Some? then {o.value} else {}
  }

  function Unless(o: Option<Id>, gone: set<Id>): Option<Id> {
    if o.Some? && o.value in gone then None else o
  }

  type Db = map<Id, Row>

  predicate IsYard(db: Db, id: Id) { id in db && db[id].Yard? }
  predicate IsPod(db: Db, id: Id) { id in db && db[id].Pod? }
  predicate IsMember(db: Db, id: Id) { id in db && db[id].Member? }
  predicate IsPost(db: Db, id: Id) { id in db && db[id].Post? }
  predicate IsComment(db: Db, id: Id) { id in db && db[id].Comment? }

  /** The schema's foreign keys, and the check constraint on media: exactly one owner. */
  ghost predicate RowOk(db: Db, row: Row) {
    match row
    case Yard(_, _) => true
    case Pod(_, o) => o.Some? ==> IsMember(db, o.value)
    case Member(_, p) => p.Some? ==> IsMember(db, p.value)
    case PodYard(p, y) => IsPod(db, p) && IsYard(db, y)
    case Membership(m, p) => IsMember(db, m) && IsPod(db, p)
    case Post(a, p, _, m) => IsMember(db, a) && IsPod(db, p) && (m.Some? ==> IsMember(db, m.value))
    case PostYard(p, y) => IsPost(db, p) && IsYard(db, y)
    case Comment(a, p, _, m) => IsMember(db, a) && IsPost(db, p) && (m.Some? ==> IsMember(db, m.value))
    case Media(p, c) =>
      (p.Some? <==> c.None?) && (p.Some? ==> IsPost(db, p.value)) && (c.Some? ==> IsComment(db, c.value))
    case Reaction(m, p) => IsMember(db, m) && IsPost(db, p)
    case ProfilePhoto(m) => IsMember(db, m)
    case Dependent(_, parents, mentions) =>
      && (forall p | p in parents :: p in db && !db[p].Media? && !db[p].ProfilePhoto?)
      && mentions <= db.Keys
  }

  ghost predicate WellFormed(db: Db) {
    forall id | id in db :: RowOk(db, db[id])
  }

  // ----- Membership and the sides it gives -----

  function PodsOf(db: Db, member: Id): set<Id> {
    set id | id in db && db[id].Membership? && db[id].member == member :: db[id].pod
  }

  function YardsOfPod(db: Db, pod: Id): set<Id> {
    set id | id in db && db[id].PodYard? && db[id].pod == pod :: db[id].yard
  }

  /** `scoping.member_yard_ids`: the union of the yards of a member's pods. */
  function YardsOf(db: Db, member: Id): set<Id> {
    set p, y | p in PodsOf(db, member) && y in YardsOfPod(db, p) :: y
  }

  // ----- Deletion -----

  /** No row outside `s` hangs off a row in it. */
  ghost predicate Closed(db: Db, s: set<Id>) {
    forall id | id in db && db[id].Parents() * s != {} :: id in s
  }

  function Grown(db: Db, s: set<Id>): set<Id> {
    s + set id | id in db && db[id].Parents() * s != {}
  }

  /** What deleting `roots` deletes: everything hanging off them, however far down. */
  ghost function Closure(db: Db, roots: set<Id>): (c: set<Id>)
    requires roots <= db.Keys
    ensures roots <= c <= db.Keys && Closed(db, c)
    decreases db.Keys - roots
  {
    var next := Grown(db, roots);
    if next == roots then roots
    else
      var x :| x in next && x !in roots;
      Closure(db, next)
  }

  /** ... and nothing else: it is inside every closed set that holds the roots. */
  lemma {:induction false} ClosureIsLeast(db: Db, roots: set<Id>, s: set<Id>)
    requires roots <= db.Keys && roots <= s && Closed(db, s)
    ensures Closure(db, roots) <= s
    decreases db.Keys - roots
  {
    var next := Grown(db, roots);
    assert next <= s;
    if next != roots {
      var x :| x in next && x !in roots;
      ClosureIsLeast(db, next, s);
    }
  }

  /** A row other than a root is in the closure exactly when a row it hangs off is. */
  lemma InClosureByParent(db: Db, roots: set<Id>, id: Id)
    requires roots <= db.Keys && id in db && id !in roots
    ensures id in Closure(db, roots) <==> db[id].Parents() * Closure(db, roots) != {}
  {
    var c := Closure(db, roots);
    if db[id].Parents() * c == {} {
      assert Closed(db, c - {id}) by {
        forall k | k in db && db[k].Parents() * (c - {id}) != {} ensures k in c - {id} {
          assert db[k].Parents() * (c - {id}) <= db[k].Parents() * c;
        }
      }
      ClosureIsLeast(db, roots, c - {id});
    }
  }

  lemma ClosureOfUnion(db: Db, a: set<Id>, b: set<Id>)
    requires a <= db.Keys && b <= db.Keys
    ensures Closure(db, a + b) == Closure(db, a) + Closure(db, b)
  {
    var ca, cb, cab := Closure(db, a), Closure(db, b), Closure(db, a + b);
    ClosureIsLeast(db, a, cab);
    ClosureIsLeast(db, b, cab);
    assert Closed(db, ca + cb) by {
      forall k | k in db && db[k].Parents() * (ca + cb) != {} ensures k in ca + cb {
        var p :| p in db[k].Parents() * (ca + cb);
        if p in ca {
          assert p in db[k].Parents() * ca;
        } else {
          assert p in db[k].Parents() * cb;
        }
      }
    }
    ClosureIsLeast(db, a + b, ca + cb);
  }

  function Delete(db: Db, gone: set<Id>): Db {
    map id | id in db && id !in gone :: db[id].Forget(gone)
  }

  lemma ForgetKeeps(row: Row, gone: set<Id>)
    ensures row.Forget(gone).Parents() == row.Parents() && row.Forget(gone).Label() == row.Label()
  {
  }

  /** Deleting a closed set leaves a database whose foreign keys still hold. */
  lemma DeleteKeepsTheSchema(db: Db, gone: set<Id>)
    requires WellFormed(db) && Closed(db, gone)
    ensures WellFormed(Delete(db, gone))
  {
    var after := Delete(db, gone);
    forall id | id in after ensures RowOk(after, after[id]) {
      assert RowOk(db, db[id]);
      forall p | p in db[id].Parents() ensures p !in gone {
        assert p !in db[id].Parents() * gone;
      }
      ForgetKeeps(db[id], gone);
      assert forall k | k in after :: after[k] == db[k].Forget(gone);
      match db[id]
      case PodYard(p, y) => assert p in db[id].Parents() && y in db[id].Parents();
      case Membership(m, p) => assert m in db[id].Parents() && p in db[id].Parents();
      case Post(a, p, _, _) => assert a in db[id].Parents() && p in db[id].Parents();
      case PostYard(p, y) => assert p in db[id].Parents() && y in db[id].Parents();
      case Comment(a, p, _, _) => assert a in db[id].Parents() && p in db[id].Parents();
      case Media(p, c) =>
        assert p.Some? ==> p.value in db[id].Parents();
        assert c.Some? ==> c.value in db[id].Parents();
      case Reaction(m, p) => assert m in db[id].Parents() && p in db[id].Parents();
      case ProfilePhoto(m) => assert m in db[id].Parents();
      case _ =>
    }
  }

  lemma DeleteTwice(db: Db, a: set<Id>, b: set<Id>)
    ensures Delete(Delete(db, a), b) == Delete(db, a + b)
  {
    assert forall row: Row, x, y :: row.Forget(x).Forget(y) == row.Forget(x + y) by {
      forall row: Row, x: set<Id>, y: set<Id> ensures row.Forget(x).Forget(y) == row.Forget(x + y) {
        if row.Dependent? {
          assert row.mentions - x - y == row.mentions - (x + y);
        }
      }
    }
  }

  /** The residual graph: once the closure of `a` is gone, the closure of what is left of `b` is the
      closure of `b` minus what already went. */
  lemma ClosureInTheResidue(db: Db, a: set<Id>, b: set<Id>)
    requires a <= db.Keys && b <= db.Keys
    ensures var ca := Closure(db, a);
            b - ca <= Delete(db, ca).Keys && Closure(Delete(db, ca), b - ca) == Closure(db, b) - ca
  {
    var ca, cb := Closure(db, a), Closure(db, b);
    var left := Delete(db, ca);
    var cl := Closure(left, b - ca);
    assert Closed(left, cb - ca) by {
      forall k | k in left && left[k].Parents() * (cb - ca) != {} ensures k in cb - ca {
        ForgetKeeps(db[k], ca);
        var p :| p in left[k].Parents() * (cb - ca);
        assert p in db[k].Parents() * cb;
      }
    }
    ClosureIsLeast(left, b - ca, cb - ca);
    assert Closed(db, ca + cl) by {
      forall k | k in db && db[k].Parents() * (ca + cl) != {} ensures k in ca + cl {
        var p :| p in db[k].Parents() * (ca + cl);
        if p in ca {
          assert p in db[k].Parents() * ca;
        } else if k !in ca {
          ForgetKeeps(db[k], ca);
          assert p in left[k].Parents() * cl;
        }
      }
    }
    ClosureIsLeast(db, b, ca + cl);
  }

  // ----- Counting by model -----

  /** The counts are by model: two rows share a label exactly when they are of one model. */
  lemma LabelsTellModelsApart(a: Row, b: Row)
    requires !a.Dependent? && !b.Dependent? && a.Label() == b.Label()
    ensures (a.Yard? <==> b.Yard?) && (a.Pod? <==> b.Pod?) && (a.Member? <==> b.Member?)
    ensures (a.PodYard? <==> b.PodYard?) && (a.Membership? <==> b.Membership?) && (a.Post? <==> b.Post?)
    ensures (a.PostYard? <==> b.PostYard?) && (a.Comment? <==> b.Comment?) && (a.Media? <==> b.Media?)
    ensures (a.Reaction? <==> b.Reaction?) && (a.ProfilePhoto? <==> b.ProfilePhoto?)
  {
    var la, lb := a.Label(), b.Label();
    assert |la| == |lb| && la[5] == lb[5] && la[|la| - 1] == lb[|lb| - 1];
    assert |la| > 7 ==> la[7] == lb[7];
  }

  /** How many rows of each model a set of rows holds. */
  ghost function Tally(db: Db, s: set<Id>): multiset<string>
    requires s <= db.Keys
  {
    if s == {} then multiset{}
    else
      var x :| x in s;
      multiset{db[x].Label()} + Tally(db, s - {x})
  }

  lemma {:induction false} TallyWithout(db: Db, s: set<Id>, x: Id)
    requires s <= db.Keys && x in s
    ensures Tally(db, s) == multiset{db[x].Label()} + Tally(db, s - {x})
  {
    var y :| y in s && Tally(db, s) == multiset{db[y].Label()} + Tally(db, s - {y});
    if x != y {
      TallyWithout(db, s - {y}, x);
      TallyWithout(db, s - {x}, y);
      assert s - {x} - {y} == s - {y} - {x};
    }
  }

  lemma Regroup(a: multiset<string>, b: multiset<string>, c: multiset<string>)
    ensures a + (b + c) == (a + b) + c
  {
  }

  lemma {:induction false} TallyOfUnion(db: Db, a: set<Id>, b: set<Id>)
    requires a <= db.Keys && b <= db.Keys && a !! b
    ensures Tally(db, a + b) == Tally(db, a) + Tally(db, b)
  {
    if a == {} {
      assert a + b == b;
    } else {
      var x :| x in a;
      var rest, one := a - {x}, multiset{db[x].Label()};
      TallyWithout(db, a, x);
      TallyWithout(db, a + b, x);
      assert a + b - {x} == rest + b;
      TallyOfUnion(db, rest, b);
      calc {
        Tally(db, a + b);
        one + Tally(db, rest + b);
        one + (Tally(db, rest) + Tally(db, b));
        { Regroup(one, Tally(db, rest), Tally(db, b)); }
        (one + Tally(db, rest)) + Tally(db, b);
      }
    }
  }

  lemma {:induction false} TallyInTheResidue(db: Db, gone: set<Id>, s: set<Id>)
    requires s <= db.Keys && s !! gone
    ensures Tally(Delete(db, gone), s) == Tally(db, s)
  {
    if s != {} {
      var x :| x in s;
      TallyWithout(db, s, x);
      TallyWithout(Delete(db, gone), s, x);
      ForgetKeeps(db[x], gone);
      TallyInTheResidue(db, gone, s - {x});
    }
  }
}
