/** Stamping the marker onto fixture data by containment: name yards; a pod is marked when all its
    yards are named, a member when all their pods are marked, and - behind a flag - somebody already
    removed whose every trace is inside. */
module DemoMarking {
  import opened Wrappers
  import opened FamilyRows
  import opened DemoData
  import Text

  datatype Error = BlankMarker | UnknownYard | NoYard | CarriesAnotherMarker | SetChanged

  datatype Selection = Selection(yards: set<Id>, pods: set<Id>, members: set<Id>)
  {
    function All(): set<Id> { yards + pods + members }
  }

  function NamedYards(db: Db, slugs: set<string>): set<Id> {
    set y | y in db && db[y].Yard? && db[y].slug in slugs
  }

  function ContainedPods(db: Db, yards: set<Id>): set<Id> {
    set p | p in db && db[p].Pod? && YardsOfPod(db, p) * yards != {} && YardsOfPod(db, p) - yards == {}
  }

  function ContainedMembers(db: Db, pods: set<Id>): set<Id> {
    set m | m in db && db[m].Member? && PodsOf(db, m) * pods != {} && PodsOf(db, m) - pods == {}
  }

  /** The pod a post, reply or reaction sits in. */
  function PodBehind(db: Db, id: Id): Option<Id>
    requires id in db
  {
    match db[id]
    case Post(_, p, _, _) => Some(p)
    case Comment(_, p, _, _) => if IsPost(db, p) then Some(db[p].pod) else None
    case Reaction(_, p) => if IsPost(db, p) then Some(db[p].pod) else None
    case _ => None
  }

  predicate WroteInside(db: Db, member: Id, pods: set<Id>) {
    exists id | id in db :: db[id].IsAuthored() && db[id].author == member
                            && PodBehind(db, id).Some? && PodBehind(db, id).value in pods
  }

  predicate LeftATraceOutside(db: Db, member: Id, pods: set<Id>) {
    exists id | id in db :: IsTraceOf(db, id, member)
                            && !(PodBehind(db, id).Some? && PodBehind(db, id).value in pods)
  }

  predicate IsTraceOf(db: Db, id: Id, member: Id)
    requires id in db
  {
    (db[id].IsAuthored() && db[id].author == member) || (db[id].Reaction? && db[id].member == member)
  }

  predicate KeepsAChild(db: Db, member: Id, pods: set<Id>) {
    exists m | m in db :: db[m].Member? && db[m].managingParent == Some(member) && PodsOf(db, m) * pods == {}
  }

  /** Members in no pod who wrote inside `pods`, left no trace anywhere else, and orphan no child. */
  function Departed(db: Db, pods: set<Id>): set<Id> {
    set m | m in db && db[m].Member? && PodsOf(db, m) == {} && WroteInside(db, m, pods)
            && !LeftATraceOutside(db, m, pods) && !KeepsAChild(db, m, pods)
  }

  function Contained(db: Db, slugs: set<string>, includeDeparted: bool): Selection {
    var yards := NamedYards(db, slugs);
    var pods := ContainedPods(db, yards);
    Selection(yards, pods, ContainedMembers(db, pods) + if includeDeparted then Departed(db, pods) else {})
  }

  function Selected(db: Db, slugs: set<string>, marker: string, includeDeparted: bool): Result<Selection, Error> {
    var sel := Contained(db, slugs, includeDeparted);
    if Text.Strip(marker) == "" then Failure(Error.BlankMarker)
    else if exists slug | slug in slugs :: forall y | y in sel.yards :: db[y].slug != slug then Failure(UnknownYard)
    else if sel.yards == {} then Failure(NoYard)
    else if exists id | id in sel.All() :: db[id].marker != "" && db[id].marker != Text.Strip(marker)
      then Failure(CarriesAnotherMarker)
    else Success(sel)
  }

  function Stamped(db: Db, ids: set<Id>, marker: string): Db {
    map id | id in db :: if id in ids && db[id].IsRoot() then db[id].WithMarker(marker) else db[id]
  }

  function Unmarked(db: Db, marker: string): Db {
    Stamped(db, Marked(db, marker), "")
  }

  // ----- The selection, said of the rows themselves -----

  /** The row is a post in one of these pods, or a reply or reaction on one. */
  ghost predicate SitsIn(db: Db, id: Id, pods: set<Id>)
    requires id in db
  {
    || (db[id].Post? && db[id].pod in pods)
    || ((db[id].Comment? || db[id].Reaction?) && db[id].post in db && db[db[id].post].Post?
        && db[db[id].post].pod in pods)
  }

  ghost predicate Wrote(db: Db, id: Id, member: Id) {
    id in db && (db[id].Post? || db[id].Comment?) && db[id].author == member
  }

  ghost predicate Reacted(db: Db, id: Id, member: Id) {
    id in db && db[id].Reaction? && db[id].member == member
  }

  ghost predicate Seated(db: Db, member: Id, pod: Id) {
    exists k :: k in db && db[k] == Membership(member, pod)
  }

  /** In a pod, and in selected ones only. */
  ghost predicate LivesInside(db: Db, member: Id, pods: set<Id>) {
    (exists p :: Seated(db, member, p)) && forall p | Seated(db, member, p) :: p in pods
  }

  /** In no pod any more; wrote something, inside; wrote and reacted nowhere else; and leaves behind no
      child who is in none of these pods. */
  ghost predicate LeftAndWasInside(db: Db, member: Id, pods: set<Id>) {
    && (forall p :: !Seated(db, member, p))
    && (exists id :: Wrote(db, id, member) && SitsIn(db, id, pods))
    && (forall id | Wrote(db, id, member) || Reacted(db, id, member) :: SitsIn(db, id, pods))
    && (forall k | k in db && db[k].Member? && db[k].managingParent == Some(member) ::
          exists p :: p in pods && Seated(db, k, p))
  }

  lemma SeatsAreRows(db: Db, member: Id, pods: set<Id>)
    ensures forall p :: p in PodsOf(db, member) <==> Seated(db, member, p)
    ensures PodsOf(db, member) == {} <==> forall p :: !Seated(db, member, p)
    ensures PodsOf(db, member) * pods == {} <==> !exists p :: p in pods && Seated(db, member, p)
  {
    forall p ensures p in PodsOf(db, member) <==> Seated(db, member, p) {
      if k :| k in db && db[k] == Membership(member, p) {
        assert db[k].pod in PodsOf(db, member);
      }
    }
    if p :| p in pods && Seated(db, member, p) {
      assert p in PodsOf(db, member) * pods;
    }
    if p :| Seated(db, member, p) {
      assert p in PodsOf(db, member);
    }
  }

  lemma TracesAreRows(db: Db, member: Id, pods: set<Id>)
    ensures WroteInside(db, member, pods) <==> exists id :: Wrote(db, id, member) && SitsIn(db, id, pods)
    ensures !LeftATraceOutside(db, member, pods) <==>
            forall id | Wrote(db, id, member) || Reacted(db, id, member) :: SitsIn(db, id, pods)
  {
    forall id | id in db && (db[id].Post? || db[id].Comment? || db[id].Reaction?)
      ensures SitsIn(db, id, pods) <==> PodBehind(db, id).Some? && PodBehind(db, id).value in pods
    {
    }
    forall id | id in db
      ensures IsTraceOf(db, id, member) <==> Wrote(db, id, member) || Reacted(db, id, member)
    {
    }
  }

  lemma ChildrenAreRows(db: Db, member: Id, pods: set<Id>)
    ensures !KeepsAChild(db, member, pods) <==>
            forall k | k in db && db[k].Member? && db[k].managingParent == Some(member) ::
              exists p :: p in pods && Seated(db, k, p)
  {
    forall k | k in db ensures PodsOf(db, k) * pods == {} <==> !exists p :: p in pods && Seated(db, k, p) {
      SeatsAreRows(db, k, pods);
    }
  }

  lemma DepartedByRows(db: Db, pods: set<Id>, m: Id)
    ensures m in Departed(db, pods) <==> IsMember(db, m) && LeftAndWasInside(db, m, pods)
  {
    SeatsAreRows(db, m, pods);
    TracesAreRows(db, m, pods);
    ChildrenAreRows(db, m, pods);
  }

  lemma ContainedByRows(db: Db, pods: set<Id>, m: Id)
    ensures m in ContainedMembers(db, pods) <==> IsMember(db, m) && LivesInside(db, m, pods)
  {
    SeatsAreRows(db, m, pods);
    if IsMember(db, m) && LivesInside(db, m, pods) {
      var p :| Seated(db, m, p);
      assert p in PodsOf(db, m) * pods;
      assert PodsOf(db, m) - pods == {};
    }
    if m in ContainedMembers(db, pods) {
      forall p | Seated(db, m, p) ensures p in pods {
        assert p in PodsOf(db, m) - pods || p in pods;
      }
      var p :| p in PodsOf(db, m) * pods;
      assert Seated(db, m, p);
    }
  }

  /** Which pods: in some yard, and in named ones only. */
  lemma PodsByRows(db: Db, yards: set<Id>, p: Id)
    ensures p in ContainedPods(db, yards) <==>
            && IsPod(db, p)
            && (exists k, y :: k in db && db[k] == PodYard(p, y))
            && forall k | k in db && db[k].PodYard? && db[k].pod == p :: db[k].yard in yards
  {
    forall k | k in db && db[k].PodYard? && db[k].pod == p ensures db[k].yard in YardsOfPod(db, p) {
    }
    if k, y :| k in db && db[k] == PodYard(p, y) {
      assert y in YardsOfPod(db, p);
      if y in yards {
        assert y in YardsOfPod(db, p) * yards;
      } else {
        assert y in YardsOfPod(db, p) - yards;
      }
    }
    if p in ContainedPods(db, yards) {
      var y :| y in YardsOfPod(db, p) * yards;
      var k :| k in db && db[k].PodYard? && db[k].pod == p && db[k].yard == y;
      assert db[k] == PodYard(p, y);
      forall k | k in db && db[k].PodYard? && db[k].pod == p ensures db[k].yard in yards {
        assert db[k].yard in YardsOfPod(db, p) - yards || db[k].yard in yards;
      }
    }
    if (forall k | k in db && db[k].PodYard? && db[k].pod == p :: db[k].yard in yards) {
      assert YardsOfPod(db, p) - yards == {};
    }
  }

  /** What is selected, row by row. A member comes by living inside; or, behind the flag, by having left and
      having written inside and nowhere else. Nobody who never wrote anything comes the second way. */
  lemma SelectedByRows(db: Db, slugs: set<string>, marker: string, includeDeparted: bool)
    requires Selected(db, slugs, marker, includeDeparted).Success?
    ensures var sel := Selected(db, slugs, marker, includeDeparted).value;
            && (forall y :: y in sel.yards <==> IsYard(db, y) && db[y].slug in slugs)
            && (forall p :: p in sel.pods <==>
                  && IsPod(db, p)
                  && (exists k, y :: k in db && db[k] == PodYard(p, y))
                  && forall k | k in db && db[k].PodYard? && db[k].pod == p :: db[k].yard in sel.yards)
            && (forall m :: m in sel.members <==>
                  IsMember(db, m)
                  && (LivesInside(db, m, sel.pods) || (includeDeparted && LeftAndWasInside(db, m, sel.pods))))
  {
    var sel := Selected(db, slugs, marker, includeDeparted).value;
    forall p {:trigger p in sel.pods} ensures p in sel.pods <==>
                  && IsPod(db, p)
                  && (exists k, y :: k in db && db[k] == PodYard(p, y))
                  && forall k | k in db && db[k].PodYard? && db[k].pod == p :: db[k].yard in sel.yards
    {
      PodsByRows(db, sel.yards, p);
    }
    forall m {:trigger m in sel.members} ensures m in sel.members <==>
                  IsMember(db, m)
                  && (LivesInside(db, m, sel.pods) || (includeDeparted && LeftAndWasInside(db, m, sel.pods)))
    {
      ContainedByRows(db, sel.pods, m);
      DepartedByRows(db, sel.pods, m);
    }
  }

  /** And when there is a selection at all, the refusals in their order. */
  lemma RefusalsByRows(db: Db, slugs: set<string>, marker: string, includeDeparted: bool)
    ensures var r, m := Selected(db, slugs, marker, includeDeparted), Text.Strip(marker);
            var unknown := exists slug :: slug in slugs && forall y | IsYard(db, y) :: db[y].slug != slug;
            && (r == Failure(Error.BlankMarker) <==> m == "")
            && (r == Failure(UnknownYard) <==> m != "" && unknown)
            && (r == Failure(NoYard) <==> m != "" && slugs == {})
            && (r == Failure(CarriesAnotherMarker) <==>
                && m != "" && !unknown && slugs != {}
                && exists id :: id in Contained(db, slugs, includeDeparted).All() && id in db && db[id].IsRoot()
                                && db[id].marker !in {"", m})
  {
    var sel := Contained(db, slugs, includeDeparted);
    SelectionIsRoots(db, slugs, includeDeparted);
    forall slug | slug in slugs
      ensures (forall y | y in sel.yards :: db[y].slug != slug) <==> forall y | IsYard(db, y) :: db[y].slug != slug
    {
    }
    if slugs != {} && sel.yards == {} {
      var slug :| slug in slugs;
      assert forall y | IsYard(db, y) :: y in sel.yards || db[y].slug !in slugs;
    }
  }

  /** Somebody in no pod who never wrote anything outlives any marking and the wipe after it. */
  lemma WhoWroteNothingStays(db: Db, slugs: set<string>, marker: string, includeDeparted: bool, m: Id)
    requires marker != "" && Marked(db, marker) == {} && IsMember(db, m)
    requires (forall p :: !Seated(db, m, p)) && forall id :: !Wrote(db, id, m)
    ensures var after := Stamped(db, Contained(db, slugs, includeDeparted).All(), marker);
            m in Delete(after, Collected(after, marker))
  {
    var sel := Contained(db, slugs, includeDeparted);
    DepartedByRows(db, sel.pods, m);
    ContainedByRows(db, sel.pods, m);
    SelectionIsRoots(db, slugs, includeDeparted);
    RootsAfterMarkedWipe(db, slugs, marker, includeDeparted);
  }

  // ----- Marking changes markers and nothing a closure sees -----

  lemma StampKeepsTheGraph(db: Db, ids: set<Id>, marker: string)
    ensures var after := Stamped(db, ids, marker);
            && after.Keys == db.Keys
            && (forall id | id in db :: after[id].Parents() == db[id].Parents()
                                        && (after[id].IsRoot() <==> db[id].IsRoot())
                                        && (!db[id].IsRoot() ==> after[id] == db[id]))
            && (forall id | id in db :: IsPod(after, id) == IsPod(db, id) && IsYard(after, id) == IsYard(db, id)
                                        && IsMember(after, id) == IsMember(db, id))
            && (forall m :: PodsOf(after, m) == PodsOf(db, m))
            && (forall p :: YardsOfPod(after, p) == YardsOfPod(db, p))
  {
    var after := Stamped(db, ids, marker);
    assert forall id | id in db && !db[id].IsRoot() :: after[id] == db[id];
    assert forall id | id in db && db[id].IsRoot() :: after[id].IsRoot();
  }

  lemma StampKeepsTheSchema(db: Db, ids: set<Id>, marker: string)
    requires WellFormed(db)
    ensures WellFormed(Stamped(db, ids, marker))
  {
    var after := Stamped(db, ids, marker);
    StampKeepsTheGraph(db, ids, marker);
    forall id | id in after ensures RowOk(after, after[id]) {
      assert RowOk(db, db[id]);
    }
  }

  lemma SelectionIsRoots(db: Db, slugs: set<string>, includeDeparted: bool)
    ensures var sel := Contained(db, slugs, includeDeparted);
            && (forall y | y in sel.yards :: IsYard(db, y))
            && (forall p | p in sel.pods :: IsPod(db, p))
            && (forall m | m in sel.members :: IsMember(db, m))
  {
  }

  /** With a marker nothing carried before, what the wipe then collects of yards, pods and members is
      the selection, no more and no less. */
  lemma MarkedIsTheSelection(db: Db, slugs: set<string>, marker: string, includeDeparted: bool)
    requires marker != "" && Marked(db, marker) == {}
    ensures var sel := Contained(db, slugs, includeDeparted);
            var after := Stamped(db, sel.All(), marker);
            var c := Collected(after, marker);
            && Marked(after, marker) == sel.All()
            && KindIn(after, c, Yards) == sel.yards && KindIn(after, c, Pods) == sel.pods
            && KindIn(after, c, Members) == sel.members
  {
    var sel := Contained(db, slugs, includeDeparted);
    var after := Stamped(db, sel.All(), marker);
    StampKeepsTheGraph(db, sel.All(), marker);
    SelectionIsRoots(db, slugs, includeDeparted);
    forall id | id in db && db[id].IsRoot() ensures after[id].marker == marker <==> id in sel.All() {
      assert db[id].marker != marker;
    }
    assert Marked(after, marker) == sel.All();
    forall id | id in after && after[id].IsRoot() ensures id in Collected(after, marker) <==> id in sel.All() {
      OnlyMarkedRootsGo(after, marker, id);
    }
    forall id | id in db ensures OfKind(after[id], Yards) == IsYard(db, id)
                              && OfKind(after[id], Pods) == IsPod(db, id)
                              && OfKind(after[id], Members) == IsMember(db, id)
    {
    }
  }

  /** A pod left unmarked is in a yard nobody named, or in no yard. */
  lemma UnmarkedPod(db: Db, yards: set<Id>, p: Id)
    requires IsPod(db, p) && p !in ContainedPods(db, yards)
    ensures YardsOfPod(db, p) <= yards <==> YardsOfPod(db, p) == {}
  {
    if y :| y in YardsOfPod(db, p) {
      assert y in yards ==> y in YardsOfPod(db, p) * yards;
    }
  }

  lemma TheirPodsArePods(db: Db, m: Id)
    requires WellFormed(db)
    ensures forall p | p in PodsOf(db, m) :: IsPod(db, p)
  {
    forall p | p in PodsOf(db, m) ensures IsPod(db, p) {
      var id :| id in db && db[id] == Membership(m, p);
      assert RowOk(db, db[id]);
    }
  }

  lemma StrandedByMarking(db: Db, slugs: set<string>, marker: string, includeDeparted: bool, m: Id)
    requires marker != "" && Marked(db, marker) == {} && WellFormed(db)
    ensures var sel := Contained(db, slugs, includeDeparted);
            var after := Stamped(db, sel.All(), marker);
            IsStranded(after, Collected(after, marker), m) <==>
            && PodsOf(db, m) != {}
            && forall p | p in PodsOf(db, m) - sel.pods :: YardsOfPod(db, p) == {}
  {
    var sel := Contained(db, slugs, includeDeparted);
    StampKeepsTheGraph(db, sel.All(), marker);
    MarkedIsTheSelection(db, slugs, marker, includeDeparted);
    TheirPodsArePods(db, m);
    forall p | p in PodsOf(db, m) - sel.pods
      ensures YardsOfPod(db, p) <= sel.yards <==> YardsOfPod(db, p) == {}
    {
      UnmarkedPod(db, sel.yards, p);
    }
  }

  /** Whom a wipe straight after one marking would strand: an unselected member, in some pod, all of
      whose unselected pods are in no yard at all. */
  lemma MarkThenWipeStrands(db: Db, slugs: set<string>, marker: string, includeDeparted: bool, m: Id)
    requires marker != "" && Marked(db, marker) == {} && NamedYards(db, slugs) != {} && WellFormed(db)
    ensures var sel := Contained(db, slugs, includeDeparted);
            var after := Stamped(db, sel.All(), marker);
            m in Stranded(after, Collected(after, marker)) <==>
            && IsMember(db, m) && m !in sel.members && PodsOf(db, m) != {}
            && forall p | p in PodsOf(db, m) - sel.pods :: YardsOfPod(db, p) == {}
  {
    StampKeepsTheGraph(db, Contained(db, slugs, includeDeparted).All(), marker);
    MarkedIsTheSelection(db, slugs, marker, includeDeparted);
    StrandedByMarking(db, slugs, marker, includeDeparted, m);
  }

  /** Someone in a selected pod and in a pod of no yard: the second keeps them unselected, and the wipe
      would take the only yard they see. */
  function InAPodOfNoYard(): Db {
    map[1 := Yard("a", ""), 2 := Pod("", None), 3 := PodYard(2, 1), 4 := Pod("", None),
        5 := Member("", None), 6 := Membership(5, 2), 7 := Membership(5, 4)]
  }

  lemma InAPodOfNoYardIsWellFormed()
    ensures WellFormed(InAPodOfNoYard()) && forall id | id in InAPodOfNoYard() :: !InAPodOfNoYard()[id].IsAuthored()
    ensures IsMember(InAPodOfNoYard(), 5) && IsYard(InAPodOfNoYard(), 1) && InAPodOfNoYard()[1].slug == "a"
    ensures forall id | id in InAPodOfNoYard() && InAPodOfNoYard()[id].IsRoot() :: InAPodOfNoYard()[id].marker == ""
  {
  }

  lemma InAPodOfNoYardLinks()
    ensures var db := InAPodOfNoYard();
            PodsOf(db, 5) == {2, 4} && YardsOfPod(db, 2) == {1} && YardsOfPod(db, 4) == {}
  {
    var db := InAPodOfNoYard();
    assert db[6] == Membership(5, 2) && db[7] == Membership(5, 4) && db[3] == PodYard(2, 1);
    assert {2, 4} <= PodsOf(db, 5) && 1 in YardsOfPod(db, 2);
  }

  lemma InAPodOfNoYardSelected()
    ensures Contained(InAPodOfNoYard(), {"a"}, false) == Selection({1}, {2}, {})
    ensures YardsOf(InAPodOfNoYard(), 5) != {}
  {
    var db := InAPodOfNoYard();
    InAPodOfNoYardLinks();
    assert NamedYards(db, {"a"}) == {1};
    assert 1 in YardsOfPod(db, 2) * {1} && 2 in PodsOf(db, 5);
    assert 1 in YardsOf(db, 5);
    assert ContainedPods(db, {1}) == {2};
    assert 4 in PodsOf(db, 5) - {2};
    assert ContainedMembers(db, {2}) == {};
  }

  /** Nothing refuses a first marking of known yards. */
  lemma SelectedWhole(db: Db, slugs: set<string>, marker: string)
    requires Text.Strip(marker) != "" && NamedYards(db, slugs) != {}
    requires forall slug | slug in slugs :: exists y :: IsYard(db, y) && db[y].slug == slug
    requires forall id | id in Contained(db, slugs, false).All() && id in db && db[id].IsRoot() :: db[id].marker == ""
    ensures Selected(db, slugs, marker, false) == Success(Contained(db, slugs, false))
  {
    SelectionIsRoots(db, slugs, false);
    forall slug | slug in slugs ensures !forall y | y in NamedYards(db, slugs) :: db[y].slug != slug {
      var y :| IsYard(db, y) && db[y].slug == slug;
      assert y in NamedYards(db, slugs);
    }
  }

  /** Where nobody wrote anything, a member so stranded is what the wipe is refused over. */
  lemma StrandingIsTheRefusal(db: Db, slugs: set<string>, marker: string, m: Id)
    requires Text.Strip(marker) == marker != "" && Marked(db, marker) == {} && NamedYards(db, slugs) != {}
    requires WellFormed(db) && forall id | id in db :: !db[id].IsAuthored()
    requires var sel := Contained(db, slugs, false);
             && IsMember(db, m) && m !in sel.members && PodsOf(db, m) != {}
             && forall p | p in PodsOf(db, m) - sel.pods :: YardsOfPod(db, p) == {}
    ensures var after := Stamped(db, Contained(db, slugs, false).All(), marker);
            m in Stranded(after, Collected(after, marker)) && Previewed(after, marker) == Failure(StrandsSomeone)
  {
    var ids := Contained(db, slugs, false).All();
    MarkThenWipeStrands(db, slugs, marker, false, m);
    StampKeepsTheSchema(db, ids, marker);
    StampKeepsTheGraph(db, ids, marker);
    TrespassIsExactlyWordsLost(Stamped(db, ids, marker), marker);
  }

  /** The input on which a wipe right after a first marking is refused as stranding somebody. */
  lemma MarkThenWipeMayBeRefused() returns (db: Db, slugs: set<string>, marker: string, m: Id)
    ensures WellFormed(db) && Marked(db, marker) == {} && YardsOf(db, m) != {}
    ensures var r := Selected(db, slugs, marker, false);
            && r.Success?
            && var after := Stamped(db, r.value.All(), marker);
               m in Stranded(after, Collected(after, marker)) && Previewed(after, marker) == Failure(StrandsSomeone)
  {
    db, slugs, marker, m := InAPodOfNoYard(), {"a"}, "m", 5;
    InAPodOfNoYardIsWellFormed();
    InAPodOfNoYardLinks();
    InAPodOfNoYardSelected();
    SelectedWhole(db, slugs, marker);
    StrandingIsTheRefusal(db, slugs, marker, m);
  }

  /** The member's side of it: an unselected member in a pod has a pod that was not selected. */
  lemma KeepsAPod(db: Db, pods: set<Id>, m: Id)
    requires IsMember(db, m) && m !in ContainedMembers(db, pods) && PodsOf(db, m) != {}
    ensures PodsOf(db, m) - pods != {}
  {
    var p :| p in PodsOf(db, m);
    assert p in pods ==> p in PodsOf(db, m) * pods;
  }

  lemma SeesAYard(db: Db, m: Id)
    requires PodsOf(db, m) != {} && forall p | p in PodsOf(db, m) :: YardsOfPod(db, p) != {}
    ensures YardsOf(db, m) != {}
  {
    var p :| p in PodsOf(db, m);
    var y :| y in YardsOfPod(db, p);
    assert y in YardsOf(db, m);
  }

  /** A single containment marking followed by a wipe strands nobody when every pod has a yard: each
      unmarked member with pods keeps a surviving pod in a surviving yard. */
  lemma MarkThenWipeStrandsNobody(db: Db, slugs: set<string>, marker: string, includeDeparted: bool)
    requires marker != "" && Marked(db, marker) == {} && NamedYards(db, slugs) != {} && WellFormed(db)
    requires forall p | IsPod(db, p) :: YardsOfPod(db, p) != {}
    ensures var sel := Contained(db, slugs, includeDeparted);
            var after := Stamped(db, sel.All(), marker);
            var c := Collected(after, marker);
            && Stranded(after, c) == {}
            && forall m | IsMember(db, m) && m !in sel.members && PodsOf(db, m) != {} ::
                 YardsOf(Delete(after, c), m) != {}
  {
    var sel := Contained(db, slugs, includeDeparted);
    var after := Stamped(db, sel.All(), marker);
    var c := Collected(after, marker);
    StampKeepsTheGraph(db, sel.All(), marker);
    StampKeepsTheSchema(db, sel.All(), marker);
    MarkedIsTheSelection(db, slugs, marker, includeDeparted);
    forall m ensures m !in Stranded(after, c) {
      MarkThenWipeStrands(db, slugs, marker, includeDeparted, m);
      if IsMember(db, m) && m !in sel.members && PodsOf(db, m) != {} {
        KeepsAPod(db, sel.pods, m);
        TheirPodsArePods(db, m);
      }
    }
    forall m | IsMember(db, m) && m !in sel.members && PodsOf(db, m) != {}
      ensures YardsOf(Delete(after, c), m) != {}
    {
      TheirPodsArePods(db, m);
      SeesAYard(after, m);
      NobodyLosesTheirLastYard(after, marker, m);
    }
  }

  /** Both stages together, when every pod has a yard: the wipe after one marking goes ahead exactly when
      nothing it would take - in a selected pod, or under a selected member's post wherever that is - is a
      live post or reply, or a deleted one still carrying photographs, of somebody not selected. Of yards,
      pods and members exactly the selection goes. */
  lemma MarkThenWipeGoesAheadExactly(db: Db, slugs: set<string>, marker: string, includeDeparted: bool)
    requires Text.Strip(marker) == marker != "" && Marked(db, marker) == {} && WellFormed(db)
    requires NamedYards(db, slugs) != {} && forall p | IsPod(db, p) :: YardsOfPod(db, p) != {}
    ensures var sel := Contained(db, slugs, includeDeparted);
            var after := Stamped(db, sel.All(), marker);
            var c := Collected(after, marker);
            && (Previewed(after, marker).Success? <==>
                forall id | id in c && LiveWords(db, id) :: db[id].author in sel.members)
            && forall id | id in db && db[id].IsRoot() :: id in Delete(after, c) <==> id !in sel.All()
  {
    var sel := Contained(db, slugs, includeDeparted);
    var after := Stamped(db, sel.All(), marker);
    var c := Collected(after, marker);
    RootsAfterMarkedWipe(db, slugs, marker, includeDeparted);
    MarkThenWipeIsRefusedOverWords(db, slugs, marker, includeDeparted);
    forall id | LiveWords(db, id) ensures db[id].author in c <==> db[id].author in sel.members {
      AuthorsOfTheSelected(db, slugs, marker, includeDeparted, id);
    }
    NoWordsTaken(db, c, sel.members);
  }

  lemma NoWordsTaken(db: Db, gone: set<Id>, members: set<Id>)
    requires forall id | LiveWords(db, id) :: db[id].author in gone <==> db[id].author in members
    ensures !(exists id :: TakesWords(db, gone, id)) <==>
            forall id | id in gone && LiveWords(db, id) :: db[id].author in members
  {
    if !exists id :: TakesWords(db, gone, id) {
      forall id | id in gone && LiveWords(db, id) ensures db[id].author in members {
        assert !TakesWords(db, gone, id);
      }
    }
  }

  lemma AuthorsOfTheSelected(db: Db, slugs: set<string>, marker: string, includeDeparted: bool, id: Id)
    requires marker != "" && Marked(db, marker) == {} && WellFormed(db)
    requires id in db && (db[id].Post? || db[id].Comment?)
    ensures var sel := Contained(db, slugs, includeDeparted);
            var c := Collected(Stamped(db, sel.All(), marker), marker);
            db[id].author in c <==> db[id].author in sel.members
  {
    var sel := Contained(db, slugs, includeDeparted);
    var after := Stamped(db, sel.All(), marker);
    assert RowOk(db, db[id]);
    StampKeepsTheGraph(db, sel.All(), marker);
    MarkedIsTheSelection(db, slugs, marker, includeDeparted);
    var c := Collected(after, marker);
    assert db[id].author in c <==> db[id].author in KindIn(after, c, Members);
  }

  lemma MarkThenWipeIsRefusedOverWords(db: Db, slugs: set<string>, marker: string, includeDeparted: bool)
    requires Text.Strip(marker) == marker != "" && Marked(db, marker) == {} && WellFormed(db)
    requires NamedYards(db, slugs) != {} && forall p | IsPod(db, p) :: YardsOfPod(db, p) != {}
    ensures var after := Stamped(db, Contained(db, slugs, includeDeparted).All(), marker);
            var c := Collected(after, marker);
            Previewed(after, marker).Success? <==> !exists id :: TakesWords(db, c, id)
  {
    var sel := Contained(db, slugs, includeDeparted);
    var after := Stamped(db, sel.All(), marker);
    StampKeepsTheSchema(db, sel.All(), marker);
    MarkThenWipeStrandsNobody(db, slugs, marker, includeDeparted);
    TrespassByRows(after, marker);
    WordsOfAStampedDb(db, sel.All(), marker, Collected(after, marker));
  }

  /** Stamping leaves words, and the photographs on them, where they were. */
  lemma WordsOfAStampedDb(db: Db, ids: set<Id>, marker: string, gone: set<Id>)
    ensures var after := Stamped(db, ids, marker);
            forall id :: TakesWords(after, gone, id) <==> TakesWords(db, gone, id)
  {
    var after := Stamped(db, ids, marker);
    StampKeepsTheGraph(db, ids, marker);
    assert forall k | k in db :: after[k].Media? == db[k].Media? && after[k].Parents() == db[k].Parents();
    assert forall id | id in db && (db[id].Post? || db[id].Comment?) :: after[id] == db[id];
    assert forall id | id in db :: (after[id].Post? <==> db[id].Post?) && (after[id].Comment? <==> db[id].Comment?);
  }

  lemma RootsAfterMarkedWipe(db: Db, slugs: set<string>, marker: string, includeDeparted: bool)
    requires marker != "" && Marked(db, marker) == {}
    ensures var sel := Contained(db, slugs, includeDeparted);
            var after := Stamped(db, sel.All(), marker);
            forall id | id in db && db[id].IsRoot() ::
              id in Delete(after, Collected(after, marker)) <==> id !in sel.All()
  {
    var sel := Contained(db, slugs, includeDeparted);
    var after := Stamped(db, sel.All(), marker);
    StampKeepsTheGraph(db, sel.All(), marker);
    MarkedIsTheSelection(db, slugs, marker, includeDeparted);
    forall id | id in db && db[id].IsRoot()
      ensures id in Delete(after, Collected(after, marker)) <==> id !in sel.All()
    {
      OnlyMarkedRootsGo(after, marker, id);
      assert id in Marked(after, marker) <==> id in sel.All();
    }
  }

  /** Rows that are neither roots nor content: links, faces, tokens and the like. */
  function Furniture(db: Db): set<Id> {
    set k | k in db && !db[k].IsContent() && !db[k].IsRoot()
  }

  /** The closure without the departed, plus them and all furniture, lets nothing else hang off it. */
  lemma DepartedOnlyAddFurniture(db: Db, slugs: set<string>)
    requires WellFormed(db)
    ensures var sel := Contained(db, slugs, false);
            sel.All() <= db.Keys && Closed(db, Closure(db, sel.All()) + Departed(db, sel.pods) + Furniture(db))
  {
    var sel := Contained(db, slugs, false);
    var base, departed := Closure(db, sel.All()), Departed(db, sel.pods);
    var s := base + departed + Furniture(db);
    forall k | k in db && db[k].Parents() * s != {} ensures k in s {
      var p :| p in db[k].Parents() * s;
      assert RowOk(db, db[k]);
      if p in base {
        assert p in db[k].Parents() * base;
      } else if db[k].IsContent() {
        assert !LeftATraceOutside(db, p, sel.pods);
        TraceIsInside(db, sel, k, p);
      }
    }
  }

  /** Clearing somebody already removed takes no post, reply, reaction or photograph that the marked
      pods were not taking anyway. */
  lemma DepartedTakeNothingMore(db: Db, slugs: set<string>, id: Id)
    requires WellFormed(db) && id in db && db[id].IsContent()
    ensures var sel := Contained(db, slugs, false);
            var all := Contained(db, slugs, true);
            && sel.All() <= db.Keys && all.All() <= db.Keys
            && (id in Closure(db, all.All()) <==> id in Closure(db, sel.All()))
  {
    var sel, all := Contained(db, slugs, false), Contained(db, slugs, true);
    DepartedOnlyAddFurniture(db, slugs);
    ClosureIsLeast(db, all.All(), Closure(db, sel.All()) + Departed(db, sel.pods) + Furniture(db));
    ClosureIsLeast(db, sel.All(), Closure(db, all.All()));
  }

  lemma TraceIsInside(db: Db, sel: Selection, k: Id, member: Id)
    requires WellFormed(db) && k in db && IsTraceOf(db, k, member) && sel.All() <= db.Keys
    requires !LeftATraceOutside(db, member, sel.pods)
    ensures k in Closure(db, sel.All())
  {
    var base := Closure(db, sel.All());
    assert RowOk(db, db[k]);
    assert PodBehind(db, k).Some? && PodBehind(db, k).value in sel.pods;
    if db[k].Post? {
      assert db[k].pod in db[k].Parents() * base;
    } else {
      var post := db[k].post;
      assert db[post].pod in db[post].Parents() * base;
      assert post in db[k].Parents() * base;
    }
  }

  /** Unmarking gives back the database from before a marking exactly when nothing carried the marker
      then; otherwise it also takes it off rows this marking never touched. */
  lemma UnmarkUndoesMarkExactly(db: Db, slugs: set<string>, marker: string, includeDeparted: bool)
    requires marker != "" && Text.Strip(marker) == marker
    requires Selected(db, slugs, marker, includeDeparted).Success?
    ensures var sel := Selected(db, slugs, marker, includeDeparted).value;
            Unmarked(Stamped(db, sel.All(), marker), marker) == db <==> Marked(db, marker) == {}
  {
    var sel := Selected(db, slugs, marker, includeDeparted).value;
    var after := Stamped(db, sel.All(), marker);
    var back := Unmarked(after, marker);
    SelectionIsRoots(db, slugs, includeDeparted);
    if Marked(db, marker) == {} {
      forall id | id in db ensures back[id] == db[id] {
        if db[id].IsRoot() {
          assert id !in Marked(db, marker);
        }
      }
    } else {
      var id :| id in Marked(db, marker);
      assert after[id].marker == marker;
      assert back[id].marker == "";
    }
  }

  /** The input on which it does not: a pod in no named yard that carried the marker before. */
  lemma UnmarkMayTakeMore() returns (db: Db, slugs: set<string>, marker: string)
    ensures WellFormed(db) && Selected(db, slugs, marker, false).Success?
    ensures Unmarked(Stamped(db, Selected(db, slugs, marker, false).value.All(), marker), marker) != db
  {
    db, slugs, marker := map[1 := Yard("a", ""), 2 := Pod("m", None)], {"a"}, "m";
    assert Text.Strip("m") == "m";
    assert NamedYards(db, slugs) == {1} && ContainedPods(db, {1}) == {} && ContainedMembers(db, {}) == {};
    assert db[1].slug == "a";
    assert Contained(db, slugs, false).All() == {1} && IsYard(db, 1);
    SelectedWhole(db, slugs, marker);
    assert 2 in Marked(db, marker);
    UnmarkUndoesMarkExactly(db, slugs, marker, false);
  }

  // ----- The loops and the two-look apply -----

  /** Candidates are the pods in a named yard; those with a yard outside are spared. */
  method SelectPods(db: Db, yards: set<Id>) returns (pods: set<Id>)
    ensures pods == ContainedPods(db, yards)
  {
    var candidates := set p | p in db && db[p].Pod? && YardsOfPod(db, p) * yards != {};
    pods := {};
    var todo := candidates;
    while todo != {}
      invariant todo <= candidates && pods == ContainedPods(db, yards) - todo
      decreases todo
    {
      var p :| p in todo;
      var outside := YardsOfPod(db, p) - yards;
      if outside == {} { pods := pods + {p}; }
      todo := todo - {p};
    }
  }

  method SelectMembers(db: Db, pods: set<Id>) returns (members: set<Id>)
    ensures members == ContainedMembers(db, pods)
  {
    var candidates := set m | m in db && db[m].Member? && PodsOf(db, m) * pods != {};
    members := {};
    var todo := candidates;
    while todo != {}
      invariant todo <= candidates && members == ContainedMembers(db, pods) - todo
      decreases todo
    {
      var m :| m in todo;
      var outside := PodsOf(db, m) - pods;
      if outside == {} { members := members + {m}; }
      todo := todo - {m};
    }
  }

  /** The selection, and the refusals in their order. */
  method Select(db: Db, slugs: set<string>, marker: string, includeDeparted: bool)
    returns (r: Result<Selection, Error>)
    ensures r == Selected(db, slugs, marker, includeDeparted)
  {
    var m := Text.Strip(marker);
    if m == "" { return Failure(Error.BlankMarker); }
    var yards := NamedYards(db, slugs);
    if exists slug | slug in slugs :: forall y | y in yards :: db[y].slug != slug { return Failure(UnknownYard); }
    if yards == {} { return Failure(NoYard); }
    var pods := SelectPods(db, yards);
    var members := SelectMembers(db, pods);
    if includeDeparted { members := members + Departed(db, pods); }
    var sel := Selection(yards, pods, members);
    assert sel == Contained(db, slugs, includeDeparted);
    if exists id | id in sel.All() :: db[id].marker != "" && db[id].marker != m {
      return Failure(CarriesAnotherMarker);
    }
    r := Success(sel);
  }

  class Marker {
    var db: Db

    /** The write half of `apply`: selected again, refused unless it is the very set that was previewed,
        then stamped onto that set alone. (The query meant to lock the yards first is never evaluated, so
        no lock is taken; here the second look and the stamping are one step.) */
    method Apply(slugs: set<string>, marker: string, includeDeparted: bool, previewed: Selection)
      returns (r: Result<Selection, Error>)
      modifies this
      ensures r.Success? <==> Selected(old(db), slugs, marker, includeDeparted) == Success(previewed)
      ensures r.Success? ==> r.value == previewed && db == Stamped(old(db), previewed.All(), Text.Strip(marker))
      ensures r.Failure? ==> db == old(db)
    {
      r := Select(db, slugs, marker, includeDeparted);
      if r.Failure? { return; }
      if r.value != previewed { return Failure(SetChanged); }
      db := Stamped(db, previewed.All(), Text.Strip(marker));
    }

    method Unmark(marker: string) returns (r: Result<nat, Error>)
      modifies this
      ensures Text.Strip(marker) == "" ==> r == Failure(Error.BlankMarker) && db == old(db)
      ensures Text.Strip(marker) != "" ==>
                && r == Success(|Marked(old(db), Text.Strip(marker))|)
                && db == Unmarked(old(db), Text.Strip(marker)) && Marked(db, Text.Strip(marker)) == {}
    {
      var m := Text.Strip(marker);
      if m == "" { return Failure(Error.BlankMarker); }
      r := Success(|Marked(db, m)|);
      db := Unmarked(db, m);
    }
  }
}
