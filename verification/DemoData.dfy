/** Removing fixture data: collect the closure of everything marked, refuse if it reaches something
    a real person made or strands a survivor, then delete member by member, pod by pod, yard by yard. */
module DemoData {
  import opened Wrappers
  import opened FamilyRows
  import Text

  datatype Refusal = BlankMarker | ReachesRealData | StrandsSomeone

  /** What a wipe removed, or would: rows by model, and the two lines that are not model counts. */
  datatype Receipt = Receipt(rows: multiset<string>, realReactions: nat, tombstones: nat)

  datatype RootKind = Yards | Pods | Members

  predicate OfKind(row: Row, kind: RootKind) {
    match kind
    case Yards => row.Yard?
    case Pods => row.Pod?
    case Members => row.Member?
  }

  function MarkedOf(db: Db, kind: RootKind, marker: string): set<Id> {
    set id | id in db && OfKind(db[id], kind) && db[id].marker == marker
  }

  function Marked(db: Db, marker: string): set<Id> {
    set id | id in db && db[id].IsRoot() && db[id].marker == marker
  }

  ghost function Collected(db: Db, marker: string): set<Id> {
    Closure(db, Marked(db, marker))
  }

  function KindIn(db: Db, c: set<Id>, kind: RootKind): set<Id> {
    set id | id in c && id in db && OfKind(db[id], kind)
  }

  predicate CarriesMedia(db: Db, c: set<Id>, id: Id) {
    exists k | k in c :: k in db && db[k].Media? && id in Given(db[k].onPost) + Given(db[k].onComment)
  }

  /** Deleted through the product already, and its photographs with it. */
  predicate IsTombstone(db: Db, c: set<Id>, id: Id)
    requires id in db && db[id].IsAuthored()
  {
    db[id].deleted && !CarriesMedia(db, c, id)
  }

  predicate Trespasses(db: Db, c: set<Id>, marker: string, id: Id)
    requires id in db
  {
    || (db[id].IsRoot() && db[id].marker != marker)
    || (db[id].IsAuthored() && !IsTombstone(db, c, id) && db[id].author !in KindIn(db, c, Members))
  }

  function Trespass(db: Db, c: set<Id>, marker: string): set<Id> {
    set id | id in c && id in db && Trespasses(db, c, marker, id)
  }

  /** The check on one member who stays: had a pod, and has none left, or none left with a yard. */
  predicate IsStranded(db: Db, c: set<Id>, member: Id) {
    var surviving := PodsOf(db, member) - KindIn(db, c, Pods);
    && PodsOf(db, member) != {}
    && forall p | p in surviving :: YardsOfPod(db, p) <= KindIn(db, c, Yards)
  }

  function Stranded(db: Db, c: set<Id>): set<Id> {
    if KindIn(db, c, Pods) == {} && KindIn(db, c, Yards) == {} then {}
    else set m | m in db && db[m].Member? && m !in KindIn(db, c, Members) && IsStranded(db, c, m)
  }

  function RealReactions(db: Db, c: set<Id>): set<Id> {
    set id | id in c && id in db && db[id].Reaction? && db[id].member !in KindIn(db, c, Members)
  }

  function Tombstones(db: Db, c: set<Id>): set<Id> {
    set id | id in c && id in db && db[id].IsAuthored() && IsTombstone(db, c, id)
             && db[id].author !in KindIn(db, c, Members)
  }

  /** What the dry run answers. */
  ghost function Previewed(db: Db, marker: string): Result<Receipt, Refusal> {
    var m := Text.Strip(marker);
    var c := Collected(db, m);
    if m == "" then Failure(BlankMarker)
    else if Trespass(db, c, m) != {} then Failure(ReachesRealData)
    else if Stranded(db, c) != {} then Failure(StrandsSomeone)
    else Success(Receipt(Tally(db, c), |RealReactions(db, c)|, |Tombstones(db, c)|))
  }

  // ----- What the refusals buy -----

  lemma OnlyMarkedRootsGo(db: Db, marker: string, id: Id)
    requires id in db && db[id].IsRoot()
    ensures id in Collected(db, marker) <==> db[id].marker == marker
  {
    if db[id].marker != marker {
      InClosureByParent(db, Marked(db, marker), id);
    }
  }

  /** A link row goes exactly when one of the two rows it links goes. */
  lemma LinksGoWithTheirEnds(db: Db, marker: string, id: Id)
    requires id in db && (db[id].Membership? || db[id].PodYard?)
    ensures db[id].Membership? ==>
              (id in Collected(db, marker) <==>
               db[id].member in Collected(db, marker) || db[id].pod in Collected(db, marker))
    ensures db[id].PodYard? ==>
              (id in Collected(db, marker) <==>
               db[id].pod in Collected(db, marker) || db[id].yard in Collected(db, marker))
  {
    var c := Collected(db, marker);
    InClosureByParent(db, Marked(db, marker), id);
    assert forall a, b :: {a, b} * c != {} <==> a in c || b in c by {
      forall a, b ensures {a, b} * c != {} <==> a in c || b in c {
        assert a in c ==> a in {a, b} * c;
        assert b in c ==> b in {a, b} * c;
      }
    }
  }

  lemma PodsAfter(db: Db, marker: string, member: Id)
    requires member !in Collected(db, marker)
    ensures PodsOf(Delete(db, Collected(db, marker)), member) == PodsOf(db, member) - Collected(db, marker)
  {
    var c := Collected(db, marker);
    var after := Delete(db, c);
    forall p | p in PodsOf(db, member) - c ensures p in PodsOf(after, member) {
      var id :| id in db && db[id] == Membership(member, p);
      LinksGoWithTheirEnds(db, marker, id);
      assert after[id] == Membership(member, p);
    }
    forall p | p in PodsOf(after, member) ensures p in PodsOf(db, member) - c {
      var id :| id in after && after[id] == Membership(member, p);
      assert db[id] == Membership(member, p);
      LinksGoWithTheirEnds(db, marker, id);
    }
  }

  lemma PodYardsAfter(db: Db, marker: string, pod: Id)
    requires pod !in Collected(db, marker)
    ensures YardsOfPod(Delete(db, Collected(db, marker)), pod) == YardsOfPod(db, pod) - Collected(db, marker)
  {
    var c := Collected(db, marker);
    var after := Delete(db, c);
    forall y | y in YardsOfPod(db, pod) - c ensures y in YardsOfPod(after, pod) {
      var id :| id in db && db[id] == PodYard(pod, y);
      LinksGoWithTheirEnds(db, marker, id);
      assert after[id] == PodYard(pod, y);
    }
    forall y | y in YardsOfPod(after, pod) ensures y in YardsOfPod(db, pod) - c {
      var id :| id in after && after[id] == PodYard(pod, y);
      assert db[id] == PodYard(pod, y);
      LinksGoWithTheirEnds(db, marker, id);
    }
  }

  lemma YardsAfter(db: Db, marker: string, member: Id)
    requires WellFormed(db) && member !in Collected(db, marker)
    ensures var c := Collected(db, marker);
            YardsOf(Delete(db, c), member) ==
            set p, y | p in PodsOf(db, member) - KindIn(db, c, Pods)
                       && y in YardsOfPod(db, p) - KindIn(db, c, Yards) :: y
  {
    var c := Collected(db, marker);
    PodsAfter(db, marker, member);
    assert PodsOf(db, member) - c == PodsOf(db, member) - KindIn(db, c, Pods) by {
      forall p | p in PodsOf(db, member) ensures IsPod(db, p) {
        var id :| id in db && db[id] == Membership(member, p);
        assert RowOk(db, db[id]);
      }
    }
    forall p | p in PodsOf(db, member) && p !in c
      ensures YardsOfPod(Delete(db, c), p) == YardsOfPod(db, p) - KindIn(db, c, Yards)
    {
      PodYardsAfter(db, marker, p);
      forall y | y in YardsOfPod(db, p) ensures IsYard(db, y) {
        var id :| id in db && db[id] == PodYard(p, y);
        assert RowOk(db, db[id]);
      }
    }
  }

  /** The stranding check says exactly what it is for: when a pod or a yard goes, the members refused
      over are the ones who stay, were in a pod, and would see no yard afterwards. */
  lemma StrandedMeansSeesNothing(db: Db, marker: string, member: Id)
    requires WellFormed(db) && IsMember(db, member)
    requires var c := Collected(db, marker); KindIn(db, c, Pods) + KindIn(db, c, Yards) != {}
    ensures var c := Collected(db, marker);
            member in Stranded(db, c) <==>
            member !in c && PodsOf(db, member) != {} && YardsOf(Delete(db, c), member) == {}
  {
    var c := Collected(db, marker);
    if member !in c {
      YardsAfter(db, marker, member);
      var left := YardsOf(Delete(db, c), member);
      if left == {} {
        forall p | p in PodsOf(db, member) - KindIn(db, c, Pods)
          ensures YardsOfPod(db, p) <= KindIn(db, c, Yards)
        {
          forall y | y in YardsOfPod(db, p) ensures y in KindIn(db, c, Yards) {
            assert y in YardsOfPod(db, p) - KindIn(db, c, Yards) ==> y in left;
          }
        }
      }
    }
  }

  /** Every member who stays and saw a yard still sees one. */
  lemma NobodyLosesTheirLastYard(db: Db, marker: string, member: Id)
    requires WellFormed(db) && IsMember(db, member) && YardsOf(db, member) != {}
    requires Stranded(db, Collected(db, marker)) == {} && member !in Collected(db, marker)
    ensures YardsOf(Delete(db, Collected(db, marker)), member) != {}
  {
    var c := Collected(db, marker);
    if KindIn(db, c, Pods) + KindIn(db, c, Yards) != {} {
      StrandedMeansSeesNothing(db, marker, member);
      var y :| y in YardsOf(db, member);
      assert PodsOf(db, member) != {};
    } else {
      YardsAfter(db, marker, member);
      var p, y :| p in PodsOf(db, member) && y in YardsOfPod(db, p);
      assert p in PodsOf(db, member) - KindIn(db, c, Pods) && y in YardsOfPod(db, p) - KindIn(db, c, Yards);
      assert y in YardsOf(Delete(db, c), member);
    }
  }

  /** Media goes exactly when the one row it hangs off goes. */
  lemma MediaGoesWithItsOwner(db: Db, marker: string, id: Id)
    requires WellFormed(db) && id in db && db[id].Media?
    ensures var owner := if db[id].onPost.Some? then db[id].onPost.value else db[id].onComment.value;
            && owner in db && db[id].Parents() == {owner}
            && (id in Collected(db, marker) <==> owner in Collected(db, marker))
  {
    var c := Collected(db, marker);
    assert RowOk(db, db[id]);
    var owner := if db[id].onPost.Some? then db[id].onPost.value else db[id].onComment.value;
    assert db[id].Parents() == {owner};
    InClosureByParent(db, Marked(db, marker), id);
    assert {owner} * c != {} <==> owner in c by {
      assert owner in c ==> owner in {owner} * c;
    }
  }

  /** The content refusal fires over exactly the posts and replies the wipe would take from somebody
      who stays, tombstones aside. (Its other half, unmarked roots, can never fire.) */
  lemma TrespassIsExactlyWordsLost(db: Db, marker: string)
    requires WellFormed(db)
    ensures var c := Collected(db, marker);
            Trespass(db, c, marker) ==
            set id | id in db && id !in Delete(db, c) && db[id].IsAuthored() && db[id].author in Delete(db, c)
                     && !IsTombstone(db, db.Keys, id)
  {
    var c := Collected(db, marker);
    forall id | id in c
      ensures Trespasses(db, c, marker, id) <==>
              db[id].IsAuthored() && db[id].author in Delete(db, c) && !IsTombstone(db, db.Keys, id)
    {
      if db[id].IsRoot() {
        OnlyMarkedRootsGo(db, marker, id);
      } else if db[id].IsAuthored() {
        assert RowOk(db, db[id]);
        forall k | k in db && db[k].Media? && id in db[k].Parents() ensures k in c {
          MediaGoesWithItsOwner(db, marker, k);
        }
        assert CarriesMedia(db, c, id) <==> CarriesMedia(db, db.Keys, id);
      }
    }
  }

  lemma WordsStay(db: Db, marker: string, id: Id)
    requires WellFormed(db) && Trespass(db, Collected(db, marker), marker) == {}
    requires id in db && db[id].IsAuthored() && !IsTombstone(db, db.Keys, id)
    requires db[id].author !in Collected(db, marker)
    ensures id !in Collected(db, marker)
    ensures forall k | k in db && db[k].Media? && id in db[k].Parents() :: k !in Collected(db, marker)
  {
    var c := Collected(db, marker);
    forall k | k in db && db[k].Media? && id in db[k].Parents() ensures k in c <==> id in c {
      MediaGoesWithItsOwner(db, marker, k);
    }
    assert id in c ==> id in Trespass(db, c, marker);
  }

  /** A wipe that is not refused keeps every unmarked yard, pod and member, and every live post and
      reply of anyone who stays, with all its photographs; a tombstone still carrying photographs
      counts as live. The exactly-one-owner constraint on media is what the last part rests on. */
  lemma WhatPeopleMadeSurvives(db: Db, marker: string)
    requires WellFormed(db) && Previewed(db, marker).Success?
    ensures var m := Text.Strip(marker);
            var after := Delete(db, Collected(db, m));
            && WellFormed(after)
            && (forall id | id in db && db[id].IsRoot() :: id in after <==> db[id].marker != m)
            && (forall id | id in db && db[id].IsAuthored() && db[id].author in after
                            && !IsTombstone(db, db.Keys, id) ::
                  && id in after
                  && forall k | k in db && db[k].Media? && id in db[k].Parents() :: k in after)
  {
    var m := Text.Strip(marker);
    var c := Collected(db, m);
    var after := Delete(db, c);
    DeleteKeepsTheSchema(db, c);
    forall id | id in db && db[id].IsRoot() ensures id in after <==> db[id].marker != m {
      OnlyMarkedRootsGo(db, m, id);
    }
    forall id | id in db && db[id].IsAuthored() && db[id].author in after && !IsTombstone(db, db.Keys, id)
      ensures id in after
      ensures forall k | k in db && db[k].Media? && id in db[k].Parents() :: k in after
    {
      WordsStay(db, m, id);
    }
  }

  // ----- The same, said of the rows themselves -----

  /** A post or reply not deleted, or deleted with photographs still on it. */
  ghost predicate LiveWords(db: Db, id: Id) {
    && id in db && (db[id].Post? || db[id].Comment?)
    && (!db[id].deleted || exists k :: k in db && db[k].Media? && id in db[k].Parents())
  }

  /** Live words go while their author stays. */
  ghost predicate TakesWords(db: Db, gone: set<Id>, id: Id) {
    LiveWords(db, id) && id in gone && db[id].author !in gone
  }

  ghost predicate TakesAPlace(db: Db, gone: set<Id>) {
    exists id :: id in gone && id in db && (db[id].Pod? || db[id].Yard?)
  }

  /** Someone who stays was in a pod, and of the rows that stay none puts them in a pod that is in a yard. */
  ghost predicate IsCutOff(db: Db, gone: set<Id>, member: Id) {
    && IsMember(db, member) && member !in gone
    && (exists k :: k in db && db[k].Membership? && db[k].member == member)
    && !exists k, l :: k in db && l in db && k !in gone && l !in gone
                       && db[k].Membership? && db[k].member == member && db[l].PodYard? && db[l].pod == db[k].pod
  }

  lemma TrespassByRows(db: Db, marker: string)
    requires WellFormed(db)
    ensures var c := Collected(db, marker);
            Trespass(db, c, marker) != {} <==> exists id :: TakesWords(db, c, id)
  {
    var c := Collected(db, marker);
    TrespassIsExactlyWordsLost(db, marker);
    forall id | id in db && (db[id].Post? || db[id].Comment?)
      ensures id in Trespass(db, c, marker) <==> TakesWords(db, c, id)
    {
      assert RowOk(db, db[id]);
      forall k | k in db && db[k].Media?
        ensures id in db[k].Parents() <==> id in Given(db[k].onPost) + Given(db[k].onComment)
      {
      }
    }
    forall id | TakesWords(db, c, id) ensures id in Trespass(db, c, marker) {
    }
    if Trespass(db, c, marker) != {} {
      var id :| id in Trespass(db, c, marker);
      assert TakesWords(db, c, id);
    }
  }

  /** A membership row and a pod-yard row that both stay show a yard, and only such a pair does. */
  lemma YardsAreRows(db: Db, gone: set<Id>, member: Id)
    ensures YardsOf(Delete(db, gone), member) != {} <==>
            exists k, l :: k in db && l in db && k !in gone && l !in gone
                           && db[k].Membership? && db[k].member == member && db[l].PodYard? && db[l].pod == db[k].pod
  {
    var after := Delete(db, gone);
    if k, l :| k in db && l in db && k !in gone && l !in gone
               && db[k].Membership? && db[k].member == member && db[l].PodYard? && db[l].pod == db[k].pod {
      assert after[k] == db[k] && after[l] == db[l];
      assert db[k].pod in PodsOf(after, member) && db[l].yard in YardsOfPod(after, db[k].pod);
      assert db[l].yard in YardsOf(after, member);
    }
    if y :| y in YardsOf(after, member) {
      var p :| p in PodsOf(after, member) && y in YardsOfPod(after, p);
      var k :| k in after && after[k].Membership? && after[k].member == member && after[k].pod == p;
      var l :| l in after && after[l].PodYard? && after[l].pod == p;
      assert db[k] == after[k] && db[l] == after[l];
    }
  }

  lemma PodsAreRows(db: Db, member: Id)
    ensures PodsOf(db, member) != {} <==> exists k :: k in db && db[k].Membership? && db[k].member == member
  {
    if k :| k in db && db[k].Membership? && db[k].member == member {
      assert db[k].pod in PodsOf(db, member);
    }
  }

  lemma CutOffSeesNothing(db: Db, marker: string, member: Id)
    ensures var c := Collected(db, marker);
            IsCutOff(db, c, member) <==>
            IsMember(db, member) && member !in c && PodsOf(db, member) != {} && YardsOf(Delete(db, c), member) == {}
  {
    YardsAreRows(db, Collected(db, marker), member);
    PodsAreRows(db, member);
  }

  lemma StrandedByRows(db: Db, marker: string)
    requires WellFormed(db)
    ensures var c := Collected(db, marker);
            Stranded(db, c) != {} <==> TakesAPlace(db, c) && exists member :: IsCutOff(db, c, member)
  {
    var c := Collected(db, marker);
    assert TakesAPlace(db, c) <==> KindIn(db, c, Pods) + KindIn(db, c, Yards) != {} by {
      if id :| id in KindIn(db, c, Pods) + KindIn(db, c, Yards) {
        assert db[id].Pod? || db[id].Yard?;
      }
      if id :| id in c && id in db && (db[id].Pod? || db[id].Yard?) {
        assert id in KindIn(db, c, Pods) + KindIn(db, c, Yards);
      }
    }
    if TakesAPlace(db, c) {
      forall m ensures m in Stranded(db, c) <==> IsCutOff(db, c, m) {
        CutOffSeesNothing(db, marker, m);
        if IsMember(db, m) {
          StrandedMeansSeesNothing(db, marker, m);
        }
      }
    }
  }

  /** What the dry run, and so the wipe, answers, in rows alone: refused over the live words of somebody who
      stays, or over somebody who stays and would see nothing; else counted. */
  lemma PreviewedByRows(db: Db, marker: string)
    requires WellFormed(db)
    ensures var m := Text.Strip(marker);
            var c, r := Collected(db, m), Previewed(db, marker);
            && (r == Failure(BlankMarker) <==> m == "")
            && (r == Failure(ReachesRealData) <==> m != "" && exists id :: TakesWords(db, c, id))
            && (r == Failure(StrandsSomeone) <==>
                && m != "" && !(exists id :: TakesWords(db, c, id))
                && TakesAPlace(db, c) && exists member :: IsCutOff(db, c, member))
            && (r.Success? ==>
                && r.value.rows == Tally(db, c)
                && r.value.realReactions == |set id | id in c && db[id].Reaction? && db[id].member !in c|
                && r.value.tombstones
                   == |set id | id in c && (db[id].Post? || db[id].Comment?) && db[id].author !in c|)
  {
    var m := Text.Strip(marker);
    var c := Collected(db, m);
    TrespassByRows(db, m);
    StrandedByRows(db, m);
    if Previewed(db, marker).Success? {
      ReceiptByRows(db, m);
    }
  }

  lemma ReceiptByRows(db: Db, marker: string)
    requires WellFormed(db) && Trespass(db, Collected(db, marker), marker) == {}
    ensures var c := Collected(db, marker);
            && RealReactions(db, c) == (set id | id in c && db[id].Reaction? && db[id].member !in c)
            && Tombstones(db, c) == (set id | id in c && (db[id].Post? || db[id].Comment?) && db[id].author !in c)
  {
    var c := Collected(db, marker);
    forall id | id in c && id in db ensures db[id].Reaction? ==> IsMember(db, db[id].member)
      ensures db[id].IsAuthored() ==> IsMember(db, db[id].author)
    {
      assert RowOk(db, db[id]);
    }
    forall id | id in c && (db[id].Post? || db[id].Comment?) && db[id].author !in c
      ensures db[id].IsAuthored() && IsTombstone(db, c, id)
    {
      assert id !in Trespass(db, c, marker);
    }
  }

  lemma SurvivingWords(db: Db, gone: set<Id>, id: Id)
    requires id in db && id !in gone
    ensures var after := Delete(db, gone);
            && id in after
            && (db[id].Post? ==> after[id].Post? && after[id].author == db[id].author
                                 && after[id].pod == db[id].pod && after[id].deleted == db[id].deleted)
            && (db[id].Comment? ==> after[id].Comment? && after[id].author == db[id].author
                                    && after[id].post == db[id].post && after[id].deleted == db[id].deleted)
            && (db[id].Media? ==> after[id] == db[id])
  {
  }

  /** A wipe that succeeds keeps every live post and reply of anyone who stays - and every deleted one that
      still carries photographs - as it was, with all its photographs. */
  lemma WipeKeepsLiveWords(db: Db, marker: string, id: Id)
    requires WellFormed(db) && Previewed(db, marker).Success? && LiveWords(db, id)
    requires db[id].author in Delete(db, Collected(db, Text.Strip(marker)))
    ensures var after := Delete(db, Collected(db, Text.Strip(marker)));
            && id in after
            && (db[id].Post? ==> after[id].Post? && after[id].author == db[id].author
                                 && after[id].pod == db[id].pod && after[id].deleted == db[id].deleted)
            && (db[id].Comment? ==> after[id].Comment? && after[id].author == db[id].author
                                    && after[id].post == db[id].post && after[id].deleted == db[id].deleted)
            && forall k | k in db && db[k].Media? && id in db[k].Parents() :: k in after && after[k] == db[k]
  {
    var m := Text.Strip(marker);
    var c := Collected(db, m);
    PreviewedByRows(db, marker);
    assert !TakesWords(db, c, id);
    SurvivingWords(db, c, id);
    forall k | k in db && db[k].Media? && id in db[k].Parents() ensures k !in c && Delete(db, c)[k] == db[k] {
      MediaGoesWithItsOwner(db, m, k);
      SurvivingWords(db, c, k);
    }
  }

  /** Rows that stay are as they were, but for references to rows that went. */
  lemma SurvivorsAreUntouched(db: Db, gone: set<Id>, id: Id)
    requires id in db && id !in gone
    requires match db[id]
             case Pod(_, owner) => owner.Some? ==> owner.value !in gone
             case Member(_, parent) => parent.Some? ==> parent.value !in gone
             case Post(_, _, _, mod) => mod.Some? ==> mod.value !in gone
             case Comment(_, _, _, mod) => mod.Some? ==> mod.value !in gone
             case Dependent(_, _, mentions) => mentions !! gone
             case _ => true
    ensures id in Delete(db, gone) && Delete(db, gone)[id] == db[id]
  {
    if db[id].Dependent? {
      assert db[id].mentions - gone == db[id].mentions;
    }
  }

  function RowsOf(db: Db, s: set<Id>, model: string): set<Id> {
    set id | id in s && id in db && db[id].Label() == model
  }

  lemma RowsOfWithout(db: Db, s: set<Id>, model: string, x: Id)
    requires x in s && x in db
    ensures |RowsOf(db, s, model)| == |RowsOf(db, s - {x}, model)| + if db[x].Label() == model then 1 else 0
  {
    var fewer := RowsOf(db, s - {x}, model);
    assert RowsOf(db, s, model) == if db[x].Label() == model then fewer + {x} else fewer;
  }

  /** The receipt's figure for a model is the number of its rows that went. */
  lemma {:induction false} TallyCounts(db: Db, s: set<Id>, model: string)
    requires s <= db.Keys
    ensures Tally(db, s)[model] == |RowsOf(db, s, model)|
  {
    if s != {} {
      var x :| x in s;
      TallyWithout(db, s, x);
      TallyCounts(db, s - {x}, model);
      RowsOfWithout(db, s, model, x);
    }
  }

  // ----- The dry run's promise: deleting one model after another removes the closure -----

  /** Progress of a wipe: what is gone is a closure of the original rows, counted once. */
  ghost predicate Removed(db0: Db, db: Db, roots: set<Id>, removed: multiset<string>) {
    && roots <= db0.Keys
    && db == Delete(db0, Closure(db0, roots))
    && removed == Tally(db0, Closure(db0, roots))
  }

  lemma RemoveNext(db0: Db, db: Db, roots: set<Id>, removed: multiset<string>, more: set<Id>)
    requires Removed(db0, db, roots, removed) && more <= db0.Keys
    ensures var left := more - Closure(db0, roots);
            && left <= db.Keys
            && Removed(db0, Delete(db, Closure(db, left)), roots + more, removed + Tally(db, Closure(db, left)))
  {
    var gone := Closure(db0, roots);
    var left := more - gone;
    ClosureInTheResidue(db0, roots, more);
    ClosureOfUnion(db0, roots, more);
    var next := Closure(db, left);
    assert gone + next == Closure(db0, roots + more);
    DeleteTwice(db0, gone, next);
    TallyOfUnion(db0, gone, next);
    TallyInTheResidue(db0, gone, next);
  }

  /** Nothing hangs off a photograph. */
  lemma MediaAreLeaves(db: Db, s: set<Id>)
    requires WellFormed(db) && s <= db.Keys && forall id | id in s :: db[id].Media? || db[id].ProfilePhoto?
    ensures Closure(db, s) == s
  {
    forall id | id in db ensures db[id].Parents() * s == {} {
      assert RowOk(db, db[id]);
    }
    ClosureIsLeast(db, s, s);
  }

  lemma MarkedIsAllThree(db: Db, marker: string)
    ensures Marked(db, marker) ==
            MarkedOf(db, Members, marker) + MarkedOf(db, Pods, marker) + MarkedOf(db, Yards, marker)
  {
  }

  lemma MarkedAfter(db: Db, gone: set<Id>, kind: RootKind, marker: string)
    ensures MarkedOf(Delete(db, gone), kind, marker) == MarkedOf(db, kind, marker) - gone
  {
  }

  /** The media rows of the closure and the faces of its members. */
  function MediaIn(db: Db, c: set<Id>): set<Id> {
    (set id | id in c && id in db && db[id].Media?)
    + (set id | id in db && db[id].ProfilePhoto? && db[id].member in KindIn(db, c, Members))
  }

  lemma MediaIsInTheClosure(db: Db, marker: string)
    ensures MediaIn(db, Collected(db, marker)) <= Collected(db, marker)
  {
    var c := Collected(db, marker);
    forall id | id in MediaIn(db, c) ensures id in c {
      if db[id].ProfilePhoto? {
        assert db[id].member in db[id].Parents() * c;
      }
    }
  }

  const WIPE_ORDER := [Members, Pods, Yards]

  /** The next model's turn: what of it is left goes, with what still hangs off it. */
  lemma RemoveNextModel(db0: Db, db: Db, roots: set<Id>, removed: multiset<string>, marker: string, k: nat)
    requires k < 3 && Removed(db0, db, roots, removed)
    ensures var left := MarkedOf(db, WIPE_ORDER[k], marker);
            && left <= db.Keys
            && Removed(db0, Delete(db, Closure(db, left)), roots + MarkedOf(db0, WIPE_ORDER[k], marker),
                       removed + Tally(db, Closure(db, left)))
  {
    MarkedAfter(db0, Closure(db0, roots), WIPE_ORDER[k], marker);
    RemoveNext(db0, db, roots, removed, MarkedOf(db0, WIPE_ORDER[k], marker));
  }

  /** The rows deleted as roots before step `k`. */
  function RootsBefore(db: Db, media: set<Id>, marker: string, k: nat): set<Id>
    requires k <= 3
  {
    if k == 0 then media else RootsBefore(db, media, marker, k - 1) + MarkedOf(db, WIPE_ORDER[k - 1], marker)
  }

  lemma AllRootsCloseToTheCollected(db: Db, media: set<Id>, marker: string)
    requires media <= db.Keys && Closure(db, media) == media && media <= Collected(db, marker)
    ensures RootsBefore(db, media, marker, 3) <= db.Keys
    ensures Closure(db, RootsBefore(db, media, marker, 3)) == Collected(db, marker)
  {
    assert RootsBefore(db, media, marker, 1) == media + MarkedOf(db, Members, marker);
    assert RootsBefore(db, media, marker, 2)
        == media + MarkedOf(db, Members, marker) + MarkedOf(db, Pods, marker);
    assert RootsBefore(db, media, marker, 3) == media + Marked(db, marker);
    ClosureOfUnion(db, media, Marked(db, marker));
  }

  /** Django's collector: follow the cascading keys until nothing new turns up. */
  method CollectFrom(db: Db, roots: set<Id>) returns (c: set<Id>)
    requires roots <= db.Keys
    ensures c == Closure(db, roots)
  {
    c := roots;
    while Grown(db, c) != c
      invariant roots <= c <= Closure(db, roots)
      decreases db.Keys - c
    {
      ghost var x :| x in Grown(db, c) && x !in c;
      assert Grown(db, c) <= Closure(db, roots) by {
        forall id | id in db && db[id].Parents() * c != {} ensures id in Closure(db, roots) {
          var p :| p in db[id].Parents() * c;
          assert p in db[id].Parents() * Closure(db, roots);
        }
      }
      c := Grown(db, c);
    }
    ClosureIsLeast(db, roots, c);
  }

  method CountByModel(db: Db, s: set<Id>) returns (counts: multiset<string>)
    requires s <= db.Keys
    ensures counts == Tally(db, s)
  {
    counts := multiset{};
    var todo := s;
    while todo != {}
      invariant todo <= s && counts + Tally(db, todo) == Tally(db, s)
      decreases todo
    {
      var x :| x in todo;
      TallyWithout(db, todo, x);
      Regroup(counts, multiset{db[x].Label()}, Tally(db, todo - {x}));
      counts := counts + multiset{db[x].Label()};
      todo := todo - {x};
    }
  }

  /** The closure, model by model, merged. */
  method Collect(db: Db, marker: string) returns (c: set<Id>)
    ensures c == Collected(db, marker)
  {
    var yards := CollectFrom(db, MarkedOf(db, Yards, marker));
    var pods := CollectFrom(db, MarkedOf(db, Pods, marker));
    var members := CollectFrom(db, MarkedOf(db, Members, marker));
    c := yards + pods + members;
    ClosureOfUnion(db, MarkedOf(db, Yards, marker), MarkedOf(db, Pods, marker));
    ClosureOfUnion(db, MarkedOf(db, Yards, marker) + MarkedOf(db, Pods, marker), MarkedOf(db, Members, marker));
    MarkedIsAllThree(db, marker);
    assert Marked(db, marker) ==
           MarkedOf(db, Yards, marker) + MarkedOf(db, Pods, marker) + MarkedOf(db, Members, marker);
  }

  method FindTrespass(db: Db, c: set<Id>, marker: string) returns (trespass: set<Id>)
    requires c <= db.Keys
    ensures trespass == Trespass(db, c, marker)
  {
    trespass := {};
    var todo := c;
    while todo != {}
      invariant todo <= c && trespass == Trespass(db, c, marker) - todo
      decreases todo
    {
      var id :| id in todo;
      if Trespasses(db, c, marker, id) { trespass := trespass + {id}; }
      todo := todo - {id};
    }
  }

  method FindStranded(db: Db, c: set<Id>) returns (stranded: set<Id>)
    ensures stranded == Stranded(db, c)
  {
    stranded := {};
    if KindIn(db, c, Pods) == {} && KindIn(db, c, Yards) == {} { return; }
    var todo := set m | m in db && db[m].Member? && m !in KindIn(db, c, Members);
    while todo != {}
      invariant forall m | m in todo :: m in db && db[m].Member? && m !in KindIn(db, c, Members)
      invariant stranded == Stranded(db, c) - todo
      decreases todo
    {
      var m :| m in todo;
      if IsStranded(db, c, m) { stranded := stranded + {m}; }
      todo := todo - {m};
    }
  }

  class Instance {
    var db: Db

    /** Both refusals, in order, then the counts. Touches nothing. */
    method Preview(marker: string) returns (r: Result<Receipt, Refusal>)
      ensures r == Previewed(db, marker)
    {
      var m := Text.Strip(marker);
      if m == "" { return Failure(BlankMarker); }
      var c := Collect(db, m);
      var trespass := FindTrespass(db, c, m);
      if trespass != {} { return Failure(ReachesRealData); }
      var stranded := FindStranded(db, c);
      if stranded != {} { return Failure(StrandsSomeone); }
      var rows := CountByModel(db, c);
      r := Success(Receipt(rows, |RealReactions(db, c)|, |Tombstones(db, c)|));
    }

    /** `queryset.delete()`: the rows, and all that hangs off them. */
    method DeleteRows(roots: set<Id>) returns (perModel: multiset<string>)
      requires roots <= db.Keys
      modifies this
      ensures db == Delete(old(db), Closure(old(db), roots))
      ensures perModel == Tally(old(db), Closure(old(db), roots))
    {
      var c := CollectFrom(db, roots);
      perModel := CountByModel(db, c);
      db := Delete(db, c);
    }

    /** Photographs and faces first, then members, pods and yards, each with what still hangs off
        them: together, the closure collected before anything went. */
    method DeleteInOrder(marker: string, c: set<Id>) returns (removed: multiset<string>)
      requires WellFormed(db) && c == Collected(db, marker)
      modifies this
      ensures db == Delete(old(db), c) && removed == Tally(old(db), c)
    {
      ghost var db0 := db;
      var media := MediaIn(db, c);
      MediaIsInTheClosure(db, marker);
      MediaAreLeaves(db, media);
      removed := DeleteRows(media);
      for k := 0 to 3
        invariant Removed(db0, db, RootsBefore(db0, media, marker, k), removed)
      {
        RemoveNextModel(db0, db, RootsBefore(db0, media, marker, k), removed, marker, k);
        var perModel := DeleteRows(MarkedOf(db, WIPE_ORDER[k], marker));
        removed := removed + perModel;
      }
      AllRootsCloseToTheCollected(db0, media, marker);
    }

    /** One transaction. It refuses and changes nothing, or deletes exactly the collected closure and
        hands back the very receipt the dry run printed. */
    method Wipe(marker: string) returns (r: Result<Receipt, Refusal>)
      requires WellFormed(db)
      modifies this
      ensures r == Previewed(old(db), marker)
      ensures db == if r.Failure? then old(db) else Delete(old(db), Collected(old(db), Text.Strip(marker)))
    {
      var m := Text.Strip(marker);
      if m == "" { return Failure(BlankMarker); }
      var c := Collect(db, m);
      var trespass := FindTrespass(db, c, m);
      if trespass != {} { return Failure(ReachesRealData); }
      var stranded := FindStranded(db, c);
      if stranded != {} { return Failure(StrandsSomeone); }
      if c == {} {
        assert Delete(db, {}) == db by { ForgetNothing(); }
        assert RealReactions(db, c) == {} && Tombstones(db, c) == {};
        return Success(Receipt(multiset{}, 0, 0));
      }
      var reactions, tombstones := |RealReactions(db, c)|, |Tombstones(db, c)|;
      var removed := DeleteInOrder(m, c);
      r := Success(Receipt(removed, reactions, tombstones));
    }
  }

  lemma ForgetNothing()
    ensures forall row: Row :: row.Forget({}) == row
  {
    forall row: Row ensures row.Forget({}) == row {
      if row.Dependent? {
        assert row.mentions - {} == row.mentions;
      }
    }
  }
}
