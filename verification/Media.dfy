/** Files and the rows that name them, over interleaved transactions: a file is written at once, its
    row at the commit, and a purge unlinks nothing until its own transaction has committed. */
module Media {
  import opened Wrappers
  import opened Collections

  type File = nat
  type RowId = nat
  type MemberId = nat
  type Thread = nat

  /** A media row and what its file fields name, or the face of one member. */
  datatype Row = Row(fields: seq<Option<File>>, face: Option<MemberId>)

  function Files(row: Row): set<File> {
    set k | 0 <= k < |row.fields| && row.fields[k].Some? :: row.fields[k].value
  }

  /** An open transaction: rows added, rows deleted, and the unlinks it has put off. */
  datatype Tx = Tx(added: map<RowId, Row>, deleted: set<RowId>, unlink: set<File>)

  /** `owner` says which row each file ever written was written for. After a commit a purged file is
      `due`; then it is `unlinked`, or `lost` when the process died first. */
  datatype State = State(
    rows: map<RowId, Row>, disk: set<File>, open: map<Thread, Tx>, locks: map<MemberId, Thread>,
    owner: map<File, RowId>, used: set<RowId>, due: set<File>, unlinked: set<File>, lost: set<File>)

  /** The files of every purge that has committed. */
  function Doomed(s: State): set<File> { s.due + s.unlinked + s.lost }

  /** The rows a transaction sees. */
  function Seen(rows: map<RowId, Row>, tx: Tx): map<RowId, Row> {
    (map r | r in rows && r !in tx.deleted :: rows[r]) + tx.added
  }

  function Visible(s: State, t: Thread): map<RowId, Row>
    requires t in s.open
  {
    Seen(s.rows, s.open[t])
  }

  function FilesOf(rows: map<RowId, Row>, ids: set<RowId>): set<File> {
    set r, f | r in ids && r in rows && f in Files(rows[r]) :: f
  }

  datatype Event =
    | Begin(thread: Thread)
    | Ingest(thread: Thread, id: RowId, fields: seq<Option<File>>)
    | IngestFace(thread: Thread, id: RowId, fields: seq<Option<File>>, member: MemberId)
    | Purge(thread: Thread, ids: set<RowId>)
    | Commit(thread: Thread)
    | Rollback(thread: Thread)
    | Unlink(file: File)
    | Lose(file: File)

  /** Row ids and file names are new; a face is replaced under the member's row lock. */
  predicate CanHappen(s: State, e: Event) {
    match e
    case Begin(t) => t !in s.open
    case Ingest(t, id, fields) => t in s.open && id !in s.used && Files(Row(fields, None)) !! s.owner.Keys
    case IngestFace(t, id, fields, m) =>
      t in s.open && id !in s.used && Files(Row(fields, Some(m))) !! s.owner.Keys && (m in s.locks ==> s.locks[m] == t)
    case Purge(t, _) => t in s.open
    case Commit(t) => t in s.open
    case Rollback(t) => t in s.open
    case Unlink(f) => f in s.due
    case Lose(f) => f in s.due
  }

  function DeletedTx(tx: Tx, ids: set<RowId>): Tx { Tx(tx.added - ids, tx.deleted + ids, tx.unlink) }

  /** The rows go inside the transaction; their files are put on the list for after the commit. */
  function PurgedTx(rows: map<RowId, Row>, tx: Tx, ids: set<RowId>): Tx {
    var seen := Seen(rows, tx);
    var gone := ids * seen.Keys;
    DeletedTx(tx, gone).(unlink := tx.unlink + FilesOf(seen, gone))
  }

  function Purged(s: State, t: Thread, ids: set<RowId>): State
    requires t in s.open
  {
    s.(open := s.open[t := PurgedTx(s.rows, s.open[t], ids)])
  }

  function Added(s: State, t: Thread, id: RowId, row: Row): State
    requires t in s.open
  {
    s.(disk := s.disk + Files(row), used := s.used + {id},
       owner := s.owner + map f | f in Files(row) :: id,
       open := s.open[t := s.open[t].(added := s.open[t].added[id := row])])
  }

  function FacesOf(rows: map<RowId, Row>, m: MemberId): set<RowId> {
    set r | r in rows && rows[r].face == Some(m)
  }

  function Locked(s: State, t: Thread, m: MemberId): State { s.(locks := s.locks[m := t]) }

  /** Lock the member, purge the current face, store the new one. */
  function FaceIngested(s: State, t: Thread, id: RowId, fields: seq<Option<File>>, m: MemberId): State
    requires t in s.open
  {
    var locked := Locked(s, t, m);
    Added(Purged(locked, t, FacesOf(Visible(locked, t), m)), t, id, Row(fields, Some(m)))
  }

  function Closed(s: State, t: Thread): State {
    s.(open := map u | u in s.open && u != t :: s.open[u],
       locks := map m | m in s.locks && s.locks[m] != t :: s.locks[m])
  }

  function Committed(s: State, t: Thread): State
    requires t in s.open
  {
    Closed(s.(rows := Visible(s, t), due := s.due + s.open[t].unlink), t)
  }

  function Step(s: State, e: Event): State
    requires CanHappen(s, e)
  {
    match e
    case Begin(t) => s.(open := s.open[t := Tx(map[], {}, {})])
    case Ingest(t, id, fields) => Added(s, t, id, Row(fields, None))
    case IngestFace(t, id, fields, m) => FaceIngested(s, t, id, fields, m)
    case Purge(t, ids) => Purged(s, t, ids)
    case Commit(t) => Committed(s, t)
    case Rollback(t) => Closed(s, t)
    case Unlink(f) => s.(due := s.due - {f}, unlinked := s.unlinked + {f}, disk := s.disk - {f})
    case Lose(f) => s.(due := s.due - {f}, lost := s.lost + {f})
  }

  predicate CanRun(s: State, events: seq<Event>)
    decreases |events|
  {
    events == [] || (CanHappen(s, events[0]) && CanRun(Step(s, events[0]), events[1..]))
  }

  function Run(s: State, events: seq<Event>): State
    requires CanRun(s, events)
    decreases |events|
  {
    if events == [] then s else Run(Step(s, events[0]), events[1..])
  }

  // ----- What every state keeps -----

  /** A row's files were written for it, are there, and no committed purge covers them. */
  ghost predicate RowOk(s: State, id: RowId, row: Row) {
    id in s.used && Files(row) <= s.disk && Files(row) !! Doomed(s)
    && forall f | f in Files(row) :: f in s.owner && s.owner[f] == id
  }

  ghost predicate TxOk(s: State, t: Thread) {
    t in s.open ==>
      var tx := s.open[t];
      && (forall r | r in tx.added :: RowOk(s, r, tx.added[r]) && r !in s.rows && r !in tx.deleted)
      && (forall f | f in tx.unlink :: f in s.owner && s.owner[f] in tx.deleted)
      && tx.deleted <= s.used
  }

  /** What one transaction adds, no other sees. */
  ghost predicate Apart(s: State, t: Thread, u: Thread) {
    t in s.open && u in s.open && t != u ==>
      s.open[t].added.Keys !! s.open[u].added.Keys && s.open[t].added.Keys !! s.open[u].deleted
  }

  /** Whoever has a new face in hand holds the member's lock, has deleted every committed face of
      theirs, and has just the one. */
  ghost predicate FacesOk(s: State, t: Thread, m: MemberId) {
    t in s.open && FacesOf(s.open[t].added, m) != {} ==>
      && m in s.locks && s.locks[m] == t
      && FacesOf(s.rows, m) <= s.open[t].deleted
      && AtMostOne(FacesOf(s.open[t].added, m))
  }

  ghost predicate AtMostOne(ids: set<RowId>) {
    forall a, b | a in ids && b in ids :: a == b
  }

  ghost predicate RowsInv(s: State) {
    && (forall r | r in s.rows :: RowOk(s, r, s.rows[r]))
    && s.unlinked !! s.disk && Doomed(s) <= s.owner.Keys && s.disk <= s.owner.Keys
  }

  ghost predicate TxInv(s: State) {
    && (forall t: Thread :: TxOk(s, t))
    && (forall t: Thread, u: Thread :: Apart(s, t, u))
  }

  ghost predicate FacesInv(s: State) {
    && (forall t: Thread, m: MemberId :: FacesOk(s, t, m))
    && (forall m: MemberId :: AtMostOne(FacesOf(s.rows, m)))
  }

  ghost predicate Inv(s: State) { RowsInv(s) && TxInv(s) && FacesInv(s) }

  lemma PurgingKeepsInv(s: State, t: Thread, ids: set<RowId>)
    requires Inv(s) && t in s.open
    ensures Inv(Purged(s, t, ids))
  {
    var s' := Purged(s, t, ids);
    assert TxOk(s, t);
    forall r | r in s'.rows ensures RowOk(s', r, s'.rows[r]) {
      assert RowOk(s, r, s.rows[r]);
    }
    forall u: Thread ensures TxOk(s', u) {
      assert TxOk(s, u);
      PurgedTxOk(s, t, ids, u);
    }
    forall u: Thread, v: Thread ensures Apart(s', u, v) {
      assert Apart(s, u, v);
      PurgedApart(s, t, ids, u, v);
    }
    forall u: Thread, m: MemberId ensures FacesOk(s', u, m) {
      assert FacesOk(s, u, m);
      if u == t {
        assert FacesOf(s'.open[t].added, m) <= FacesOf(s.open[t].added, m);
      }
    }
  }

  lemma PurgedTxOk(s: State, t: Thread, ids: set<RowId>, u: Thread)
    requires RowsInv(s) && TxOk(s, t) && TxOk(s, u) && t in s.open
    ensures TxOk(Purged(s, t, ids), u)
  {
    var s' := Purged(s, t, ids);
    if u in s.open {
      forall r | r in s'.open[u].added ensures RowOk(s', r, s'.open[u].added[r]) {
        assert RowOk(s, r, s.open[u].added[r]);
      }
    }
  }

  lemma PurgedApart(s: State, t: Thread, ids: set<RowId>, u: Thread, v: Thread)
    requires RowsInv(s) && TxInv(s) && t in s.open
    ensures Apart(Purged(s, t, ids), u, v)
  {
    assert Apart(s, u, v) && Apart(s, t, u) && Apart(s, u, t) && TxOk(s, u);
  }

  lemma AddingKeepsInv(s: State, t: Thread, id: RowId, row: Row)
    requires Inv(s) && t in s.open && id !in s.used && Files(row) !! s.owner.Keys
    requires row.face.Some? ==>
               var m := row.face.value;
               m in s.locks && s.locks[m] == t && FacesOf(Visible(s, t), m) == {}
    ensures Inv(Added(s, t, id, row))
  {
    var s' := Added(s, t, id, row);
    forall r | r in s'.rows ensures RowOk(s', r, s'.rows[r]) {
      assert RowOk(s, r, s.rows[r]);
    }
    forall u: Thread ensures TxOk(s', u) {
      AddedTxOk(s, t, id, row, u);
    }
    forall u: Thread, v: Thread ensures Apart(s', u, v) {
      assert Apart(s, u, v) && TxOk(s, u) && TxOk(s, v);
      assert u in s.open ==> forall r | r in s.open[u].added :: RowOk(s, r, s.open[u].added[r]);
    }
    forall u: Thread, m: MemberId ensures FacesOk(s', u, m) {
      assert FacesOk(s, u, m);
      if u == t {
        AddedFaces(s, t, id, row, m);
      }
    }
  }

  lemma AddedTxOk(s: State, t: Thread, id: RowId, row: Row, u: Thread)
    requires RowsInv(s) && TxInv(s) && t in s.open && id !in s.used && Files(row) !! s.owner.Keys
    ensures TxOk(Added(s, t, id, row), u)
  {
    var s' := Added(s, t, id, row);
    assert TxOk(s, u);
    if u in s.open {
      forall r | r in s'.open[u].added
        ensures RowOk(s', r, s'.open[u].added[r]) && r !in s'.rows && r !in s'.open[u].deleted
      {
        if r in s.open[u].added && (u != t || r != id) {
          assert RowOk(s, r, s.open[u].added[r]);
        } else {
          assert r in s.rows ==> RowOk(s, r, s.rows[r]);
        }
      }
    }
  }

  lemma AddedFaces(s: State, t: Thread, id: RowId, row: Row, m: MemberId)
    requires RowsInv(s) && TxOk(s, t) && t in s.open && id !in s.used
    ensures FacesOf(s.open[t].added[id := row], m)
         == FacesOf(s.open[t].added, m) + if row.face == Some(m) then {id} else {}
    ensures FacesOf(Visible(s, t), m) == {} ==>
              FacesOf(s.open[t].added, m) == {} && FacesOf(s.rows, m) <= s.open[t].deleted
  {
    assert id in s.open[t].added ==> RowOk(s, id, s.open[t].added[id]);
    forall r | r in FacesOf(s.open[t].added, m) ensures r in FacesOf(Visible(s, t), m) {
    }
    forall r | r in FacesOf(s.rows, m) && r !in s.open[t].deleted ensures r in FacesOf(Visible(s, t), m) {
      assert r !in s.open[t].added;
    }
  }

  lemma LockingKeepsInv(s: State, t: Thread, m: MemberId)
    requires Inv(s) && (m in s.locks ==> s.locks[m] == t)
    ensures Inv(Locked(s, t, m))
  {
    var s' := Locked(s, t, m);
    forall r | r in s'.rows ensures RowOk(s', r, s'.rows[r]) {
      assert RowOk(s, r, s.rows[r]);
    }
    forall u: Thread ensures TxOk(s', u) {
      assert TxOk(s, u);
      assert u in s.open ==> forall r | r in s.open[u].added :: RowOk(s, r, s.open[u].added[r]);
    }
    forall u: Thread, v: Thread ensures Apart(s', u, v) {
      assert Apart(s, u, v);
    }
    forall u: Thread, n: MemberId ensures FacesOk(s', u, n) {
      assert FacesOk(s, u, n);
    }
  }

  /** Under the lock, what the purge leaves has no face of the member, so the new one is the only one. */
  lemma ReplacingAFaceKeepsInv(s: State, t: Thread, id: RowId, fields: seq<Option<File>>, m: MemberId)
    requires Inv(s) && CanHappen(s, IngestFace(t, id, fields, m))
    ensures Inv(FaceIngested(s, t, id, fields, m))
  {
    var locked := Locked(s, t, m);
    LockingKeepsInv(s, t, m);
    var ids := FacesOf(Visible(locked, t), m);
    PurgingKeepsInv(locked, t, ids);
    var purged := Purged(locked, t, ids);
    forall r | r in Visible(purged, t)
      ensures r !in ids && r in Visible(locked, t) && Visible(purged, t)[r] == Visible(locked, t)[r]
    {
      assert TxOk(locked, t);
    }
    assert FacesOf(Visible(purged, t), m) == {};
    AddingKeepsInv(purged, t, id, Row(fields, Some(m)));
  }

  lemma ClosingKeepsInv(s: State, t: Thread)
    requires Inv(s)
    ensures Inv(Closed(s, t))
  {
    var s' := Closed(s, t);
    forall r | r in s'.rows ensures RowOk(s', r, s'.rows[r]) {
      assert RowOk(s, r, s.rows[r]);
    }
    forall u: Thread ensures TxOk(s', u) {
      assert TxOk(s, u);
      assert u in s.open ==> forall r | r in s.open[u].added :: RowOk(s, r, s.open[u].added[r]);
    }
    forall u: Thread, v: Thread ensures Apart(s', u, v) {
      assert Apart(s, u, v);
    }
    forall u: Thread, m: MemberId ensures FacesOk(s', u, m) {
      assert FacesOk(s, u, m);
    }
  }

  /** What is committed or still in another transaction was written for a row this one did not delete. */
  lemma CommittedRows(s: State, t: Thread)
    requires Inv(s) && t in s.open
    ensures RowsInv(Committed(s, t))
  {
    var s' := Committed(s, t);
    assert TxOk(s, t);
    forall r | r in s'.rows ensures RowOk(s', r, s'.rows[r]) {
      if r in s.open[t].added {
        assert RowOk(s, r, s.open[t].added[r]);
      } else {
        assert RowOk(s, r, s.rows[r]);
      }
    }
  }

  lemma CommittedTx(s: State, t: Thread, u: Thread)
    requires Inv(s) && t in s.open
    ensures TxOk(Committed(s, t), u)
  {
    var s' := Committed(s, t);
    assert TxOk(s, t) && TxOk(s, u) && Apart(s, u, t);
    if u in s'.open {
      forall r | r in s'.open[u].added ensures RowOk(s', r, s'.open[u].added[r]) {
        assert RowOk(s, r, s.open[u].added[r]);
      }
    }
  }

  lemma FacesAfterCommit(s: State, t: Thread, m: MemberId)
    requires t in s.open && TxOk(s, t)
    ensures FacesOf(Visible(s, t), m)
         == (FacesOf(s.rows, m) - s.open[t].deleted) + FacesOf(s.open[t].added, m)
  {
  }

  lemma CommittedFace(s: State, t: Thread, u: Thread, m: MemberId)
    requires t in s.open && TxOk(s, t) && FacesOk(s, t, m) && FacesOk(s, u, m) && AtMostOne(FacesOf(s.rows, m))
    ensures FacesOk(Committed(s, t), u, m) && AtMostOne(FacesOf(Committed(s, t).rows, m))
  {
    FacesAfterCommit(s, t, m);
  }

  lemma CommittedFaces(s: State, t: Thread)
    requires TxOk(s, t) && FacesInv(s) && t in s.open
    ensures FacesInv(Committed(s, t))
  {
    forall u: Thread, m: MemberId ensures FacesOk(Committed(s, t), u, m) {
      CommittedFace(s, t, u, m);
    }
    forall m: MemberId ensures AtMostOne(FacesOf(Committed(s, t).rows, m)) {
      CommittedFace(s, t, t, m);
    }
  }

  lemma CommittingKeepsInv(s: State, t: Thread)
    requires Inv(s) && t in s.open
    ensures Inv(Committed(s, t))
  {
    var s' := Committed(s, t);
    CommittedRows(s, t);
    forall u: Thread ensures TxOk(s', u) {
      CommittedTx(s, t, u);
    }
    forall u: Thread, v: Thread ensures Apart(s', u, v) {
      assert Apart(s, u, v);
    }
    CommittedFaces(s, t);
  }

  lemma RemovingKeepsInv(s: State, e: Event)
    requires Inv(s) && CanHappen(s, e) && (e.Unlink? || e.Lose?)
    ensures Inv(Step(s, e))
  {
    var s' := Step(s, e);
    assert Doomed(s') == Doomed(s);
    forall r | r in s'.rows ensures RowOk(s', r, s'.rows[r]) {
      assert RowOk(s, r, s.rows[r]);
    }
    forall u: Thread ensures TxOk(s', u) {
      assert TxOk(s, u);
      assert u in s.open ==> forall r | r in s.open[u].added :: RowOk(s, r, s.open[u].added[r]);
    }
    forall u: Thread, v: Thread ensures Apart(s', u, v) {
      assert Apart(s, u, v);
    }
    forall u: Thread, m: MemberId ensures FacesOk(s', u, m) {
      assert FacesOk(s, u, m);
    }
  }

  lemma BeginningKeepsInv(s: State, t: Thread)
    requires Inv(s) && t !in s.open
    ensures Inv(Step(s, Begin(t)))
  {
    var s' := Step(s, Begin(t));
    forall r | r in s'.rows ensures RowOk(s', r, s'.rows[r]) {
      assert RowOk(s, r, s.rows[r]);
    }
    forall u: Thread ensures TxOk(s', u) {
      assert TxOk(s, u);
      assert u in s.open ==> forall r | r in s.open[u].added :: RowOk(s, r, s.open[u].added[r]);
    }
    forall u: Thread, v: Thread ensures Apart(s', u, v) {
      assert Apart(s, u, v);
    }
    forall u: Thread, m: MemberId ensures FacesOk(s', u, m) {
      assert FacesOk(s, u, m);
    }
  }

  lemma StepKeepsInv(s: State, e: Event)
    requires Inv(s) && CanHappen(s, e)
    ensures Inv(Step(s, e))
  {
    match e
    case Begin(t) => BeginningKeepsInv(s, t);
    case Ingest(t, id, fields) => AddingKeepsInv(s, t, id, Row(fields, None));
    case IngestFace(t, id, fields, m) => ReplacingAFaceKeepsInv(s, t, id, fields, m);
    case Purge(t, ids) => PurgingKeepsInv(s, t, ids);
    case Commit(t) => CommittingKeepsInv(s, t);
    case Rollback(t) => ClosingKeepsInv(s, t);
    case Unlink(_) => RemovingKeepsInv(s, e);
    case Lose(_) => RemovingKeepsInv(s, e);
  }

  lemma {:induction false} EveryRunKeepsInv(s: State, events: seq<Event>)
    requires Inv(s) && CanRun(s, events)
    ensures Inv(Run(s, events))
    decreases |events|
  {
    if events != [] {
      StepKeepsInv(s, events[0]);
      EveryRunKeepsInv(Step(s, events[0]), events[1..]);
    }
  }

  const EMPTY := State(map[], {}, map[], map[], map[], {}, {}, {}, {})

  /** In every reachable state a committed row names files that are there, that no committed purge
      covers and that no other row names, and a member has at most one face. */
  lemma CommittedRowsAreWhole(events: seq<Event>)
    requires CanRun(EMPTY, events)
    ensures var s := Run(EMPTY, events);
            && (forall r | r in s.rows :: Files(s.rows[r]) <= s.disk && Files(s.rows[r]) !! Doomed(s))
            && (forall a, b | a in s.rows && b in s.rows && a != b :: Files(s.rows[a]) !! Files(s.rows[b]))
            && (forall a, b | a in s.rows && b in s.rows && s.rows[a].face.Some?
                              && s.rows[a].face == s.rows[b].face :: a == b)
  {
    EveryRunKeepsInv(EMPTY, events);
    var s := Run(EMPTY, events);
    forall r | r in s.rows ensures RowOk(s, r, s.rows[r]) {
    }
    forall a, b | a in s.rows && b in s.rows && s.rows[a].face.Some? && s.rows[a].face == s.rows[b].face
      ensures a == b
    {
      var m := s.rows[a].face.value;
      assert AtMostOne(FacesOf(s.rows, m)) && a in FacesOf(s.rows, m) && b in FacesOf(s.rows, m);
    }
  }

  // ----- What a commit and a rollback mean for a purge -----

  /** A purge that committed is final: whatever runs next, no row names its files, and each is off
      the disk for good unless its unlink is still to come or died with the process. */
  lemma {:induction false} DoomedStaysDoomed(s: State, events: seq<Event>)
    requires Inv(s) && CanRun(s, events)
    ensures Doomed(s) <= Doomed(Run(s, events)) && s.unlinked <= Run(s, events).unlinked
    ensures var s' := Run(s, events);
            && (forall r | r in s'.rows :: Files(s'.rows[r]) !! Doomed(s))
            && Doomed(s) * s'.disk <= s'.due + s'.lost
    decreases |events|
  {
    EveryRunKeepsInv(s, events);
    if events == [] {
      forall r | r in s.rows ensures RowOk(s, r, s.rows[r]) {
      }
    } else {
      StepKeepsInv(s, events[0]);
      DoomedStaysDoomed(Step(s, events[0]), events[1..]);
    }
  }

  /** Until the transaction that purged ends, the purge stands in it: the rows are deleted and their
      files wait, on the disk. */
  lemma {:induction false} PurgeStands(s: State, t: Thread, ids: set<RowId>, files: set<File>, events: seq<Event>)
    requires Inv(s) && CanRun(s, events) && t in s.open && ids <= s.open[t].deleted && files <= s.open[t].unlink
    requires Commit(t) !in events && Rollback(t) !in events
    ensures var s' := Run(s, events); t in s'.open && ids <= s'.open[t].deleted && files <= s'.open[t].unlink
    decreases |events|
  {
    if events != [] {
      StepKeepsInv(s, events[0]);
      PurgeStands(Step(s, events[0]), t, ids, files, events[1..]);
    }
  }

  /** Purge, anything else, commit: every file of every purged row is doomed and every such row is gone. */
  lemma CommittedPurgeTakesItsFiles(s: State, t: Thread, ids: set<RowId>, events: seq<Event>)
    requires Inv(s) && t in s.open && ids <= Visible(s, t).Keys && CanRun(Purged(s, t, ids), events)
    requires Commit(t) !in events && Rollback(t) !in events
    ensures var s' := Run(Purged(s, t, ids), events);
            && CanHappen(s', Commit(t))
            && ids !! Step(s', Commit(t)).rows.Keys
            && FilesOf(Visible(s, t), ids) <= Doomed(Step(s', Commit(t)))
  {
    PurgingKeepsInv(s, t, ids);
    assert ids * Visible(s, t).Keys == ids;
    PurgeStands(Purged(s, t, ids), t, ids, FilesOf(Visible(s, t), ids), events);
    EveryRunKeepsInv(Purged(s, t, ids), events);
    assert TxOk(Run(Purged(s, t, ids), events), t);
  }

  /** A committed row deleted in an open transaction has its files on that transaction's list. */
  ghost predicate DeletionWaits(s: State, t: Thread) {
    t in s.open ==> forall r | r in s.rows && r in s.open[t].deleted :: Files(s.rows[r]) <= s.open[t].unlink
  }

  lemma StepKeepsWaiting(s: State, e: Event, t: Thread)
    requires Inv(s) && CanHappen(s, e) && DeletionWaits(s, t)
    ensures DeletionWaits(Step(s, e), t)
  {
    assert TxOk(s, t);
    match e
    case Commit(u) =>
      assert Apart(s, u, t);
    case Purge(u, ids) =>
      assert TxOk(s, u);
      PurgeWaits(s, u, ids, t);
    case IngestFace(u, _, _, m) =>
      assert TxOk(s, u);
      var locked := Locked(s, u, m);
      PurgeWaits(locked, u, FacesOf(Visible(locked, u), m), t);
    case _ =>
  }

  lemma PurgeWaits(s: State, u: Thread, ids: set<RowId>, t: Thread)
    requires u in s.open && DeletionWaits(s, t) && forall r | r in s.open[u].added :: r !in s.rows
    ensures DeletionWaits(Purged(s, u, ids), t)
  {
    var seen, gone := Visible(s, u), ids * Visible(s, u).Keys;
    forall r | r in s.rows && r in gone ensures Files(s.rows[r]) <= FilesOf(seen, gone) {
      assert seen[r] == s.rows[r];
    }
  }

  /** Some transaction that deleted the row commits along the run. */
  predicate DeletionCommits(s: State, events: seq<Event>, r: RowId)
    requires CanRun(s, events)
    decreases |events|
  {
    events != []
    && ((events[0].Commit? && r in s.open[events[0].thread].deleted)
        || DeletionCommits(Step(s, events[0]), events[1..], r))
  }

  /** Used, in no table, and in no open transaction's hand. */
  ghost predicate Gone(s: State, r: RowId) {
    r in s.used && r !in s.rows && forall t | t in s.open :: r !in s.open[t].added
  }

  /** One step keeps a committed row as it is, or is the commit of its deletion. */
  lemma StepOnOneRow(s: State, e: Event, r: RowId)
    requires Inv(s) && CanHappen(s, e) && r in s.rows
    ensures var s' := Step(s, e);
            if e.Commit? && r in s.open[e.thread].deleted then
              Gone(s', r) && (DeletionWaits(s, e.thread) ==> Files(s.rows[r]) <= Doomed(s'))
            else r in s'.rows && s'.rows[r] == s.rows[r]
  {
    assert RowOk(s, r, s.rows[r]);
    forall t | t in s.open ensures r !in s.open[t].added {
      assert TxOk(s, t);
    }
  }

  lemma StepKeepsGone(s: State, e: Event, r: RowId)
    requires Inv(s) && CanHappen(s, e) && Gone(s, r)
    ensures Gone(Step(s, e), r)
  {
  }

  lemma {:induction false} GoneStaysGone(s: State, events: seq<Event>, r: RowId)
    requires Inv(s) && CanRun(s, events) && Gone(s, r)
    ensures r !in Run(s, events).rows
    decreases |events|
  {
    if events != [] {
      StepKeepsInv(s, events[0]);
      StepKeepsGone(s, events[0], r);
      GoneStaysGone(Step(s, events[0]), events[1..], r);
    }
  }

  /** Over any interleaving: a committed row goes exactly when a transaction that deleted it commits, and
      then a committed purge covers each of its files; otherwise it is as it was, with its files there. */
  lemma {:induction false} RowGoesExactlyWithItsPurge(s: State, events: seq<Event>, r: RowId)
    requires Inv(s) && CanRun(s, events) && r in s.rows && forall t: Thread :: DeletionWaits(s, t)
    ensures var s' := Run(s, events);
            if DeletionCommits(s, events, r) then r !in s'.rows && Files(s.rows[r]) <= Doomed(s')
            else r in s'.rows && s'.rows[r] == s.rows[r] && Files(s.rows[r]) <= s'.disk
                 && Files(s.rows[r]) !! Doomed(s')
    decreases |events|
  {
    if events == [] {
      assert RowOk(s, r, s.rows[r]);
    } else {
      var e, next := events[0], Step(s, events[0]);
      StepKeepsInv(s, e);
      StepOnOneRow(s, e, r);
      if e.Commit? && r in s.open[e.thread].deleted {
        GoneStaysGone(next, events[1..], r);
        DoomedStaysDoomed(next, events[1..]);
      } else {
        forall t: Thread ensures DeletionWaits(next, t) {
          StepKeepsWaiting(s, e, t);
        }
        RowGoesExactlyWithItsPurge(next, events[1..], r);
      }
    }
  }

  /** Nobody but `t` deletes the row: not in an open transaction now, and not by a purge or by replacing
      its face later. */
  ghost predicate OnlyTMayDelete(s: State, t: Thread, events: seq<Event>, r: RowId)
    requires r in s.rows
  {
    && (forall u | u in s.open && u != t :: r !in s.open[u].deleted)
    && (forall e | e in events :: (e.Purge? && e.thread != t ==> r !in e.ids)
                                  && (e.IngestFace? && e.thread != t ==> s.rows[r].face != Some(e.member)))
  }

  lemma StepLeavesTheRowToT(s: State, t: Thread, events: seq<Event>, r: RowId)
    requires Inv(s) && CanRun(s, events) && events != [] && r in s.rows && Commit(t) != events[0]
    requires OnlyTMayDelete(s, t, events, r)
    ensures r in Step(s, events[0]).rows && OnlyTMayDelete(Step(s, events[0]), t, events[1..], r)
  {
    var e := events[0];
    assert e in events;
    StepOnOneRow(s, e, r);
    assert forall f | f in events[1..] :: f in events;
    if e.IngestFace? {
      assert TxOk(s, e.thread);
    }
  }

  lemma {:induction false} OnlyTsCommitCouldDelete(s: State, t: Thread, events: seq<Event>, r: RowId)
    requires Inv(s) && CanRun(s, events) && r in s.rows && OnlyTMayDelete(s, t, events, r)
    requires Commit(t) !in events
    ensures !DeletionCommits(s, events, r)
    decreases |events|
  {
    if events != [] {
      StepKeepsInv(s, events[0]);
      StepLeavesTheRowToT(s, t, events, r);
      OnlyTsCommitCouldDelete(Step(s, events[0]), t, events[1..], r);
    }
  }

  /** A transaction that does not commit has removed nothing, whatever it purged and whatever the others
      commit and unlink meanwhile: a row only it deleted stands as it was, files and all. */
  lemma RollbackRemovesNothing(s: State, t: Thread, events: seq<Event>, r: RowId)
    requires Inv(s) && (forall u: Thread :: DeletionWaits(s, u)) && CanRun(s, events)
    requires r in s.rows && OnlyTMayDelete(s, t, events, r) && Commit(t) !in events
    ensures var s' := Run(s, events);
            r in s'.rows && s'.rows[r] == s.rows[r] && Files(s.rows[r]) <= s'.disk && Files(s.rows[r]) !! Doomed(s')
  {
    OnlyTsCommitCouldDelete(s, t, events, r);
    RowGoesExactlyWithItsPurge(s, events, r);
  }

  /** What the last results start from holds in every reachable state. */
  lemma {:induction false} DeletionsWaitInEveryRun(s: State, events: seq<Event>)
    requires Inv(s) && CanRun(s, events) && forall t: Thread :: DeletionWaits(s, t)
    ensures forall t: Thread :: DeletionWaits(Run(s, events), t)
    decreases |events|
  {
    if events != [] {
      StepKeepsInv(s, events[0]);
      forall t: Thread ensures DeletionWaits(Step(s, events[0]), t) {
        StepKeepsWaiting(s, events[0], t);
      }
      DeletionsWaitInEveryRun(Step(s, events[0]), events[1..]);
    }
  }

  /** A transaction that ends, either way, is over: its locks are free and the others' are as they were. */
  lemma EndingLetsGo(s: State, t: Thread, e: Event)
    requires t in s.open && (e == Commit(t) || e == Rollback(t))
    ensures var s' := Step(s, e);
            && s'.open.Keys == s.open.Keys - {t} && (forall u | u in s'.open :: s'.open[u] == s.open[u])
            && forall m :: m in s'.locks <==> m in s.locks && s.locks[m] != t
  {
  }

  /** What was ingested and not purged again is there once its transaction commits. */
  lemma IngestedRowsArrive(s: State, t: Thread, id: RowId, fields: seq<Option<File>>)
    requires Inv(s) && CanHappen(s, Ingest(t, id, fields))
    ensures var s' := Step(s, Ingest(t, id, fields));
            && CanHappen(s', Commit(t))
            && var end := Step(s', Commit(t));
               id in end.rows && end.rows[id] == Row(fields, None) && Files(end.rows[id]) <= end.disk
  {
  }

  lemma IngestedFacesArrive(s: State, t: Thread, id: RowId, fields: seq<Option<File>>, m: MemberId)
    requires Inv(s) && CanHappen(s, IngestFace(t, id, fields, m))
    ensures var s' := Step(s, IngestFace(t, id, fields, m));
            && CanHappen(s', Commit(t))
            && var end := Step(s', Commit(t));
               id in end.rows && end.rows[id] == Row(fields, Some(m)) && FacesOf(end.rows, m) == {id}
  {
    var s' := Step(s, IngestFace(t, id, fields, m));
    FaceIsInHand(s, t, id, fields, m);
    ReplacingAFaceKeepsInv(s, t, id, fields, m);
    OneFaceAtCommit(s', t, id, m);
  }

  lemma FaceIsInHand(s: State, t: Thread, id: RowId, fields: seq<Option<File>>, m: MemberId)
    requires t in s.open
    ensures var s' := FaceIngested(s, t, id, fields, m);
            t in s'.open && id in s'.open[t].added && s'.open[t].added[id] == Row(fields, Some(m))
  {
  }

  lemma OneFaceAtCommit(s: State, t: Thread, id: RowId, m: MemberId)
    requires Inv(s) && t in s.open && id in s.open[t].added && s.open[t].added[id].face == Some(m)
    ensures var end := Committed(s, t);
            id in end.rows && end.rows[id] == s.open[t].added[id] && FacesOf(end.rows, m) == {id}
  {
    CommittedFaces(s, t);
    var faces := FacesOf(Committed(s, t).rows, m);
    assert id in faces && AtMostOne(faces);
    assert faces == {id};
  }

  // ----- The loops -----

  /** One open transaction over the rows committed before it. */
  class Transaction {
    const rows: map<RowId, Row>
    var tx: Tx

    /** Deletes each row in hand, and leaves every file any of them names to the commit. */
    method Purge(assets: seq<RowId>) returns (count: nat)
      requires Elements(assets) <= Seen(rows, tx).Keys
      requires forall i, j | 0 <= i < j < |assets| :: assets[i] != assets[j]
      modifies this
      ensures tx == PurgedTx(rows, old(tx), Elements(assets))
      ensures count == |assets|
    {
      ghost var seen := Seen(rows, tx);
      var toRemove: seq<File> := [];
      count := 0;
      for k := 0 to |assets|
        invariant count == k
        invariant tx == DeletedTx(old(tx), Elements(assets[..k]))
        invariant Elements(toRemove) == FilesOf(seen, Elements(assets[..k]))
      {
        var r := assets[k];
        NextAsset(assets, k);
        DeletingOneMore(rows, old(tx), Elements(assets[..k]), r);
        var names := Names(Seen(rows, tx)[r]);
        toRemove := toRemove + names;
        tx := DeletedTx(tx, {r});
        FilesOfOneMore(seen, Elements(assets[..k]), r);
        count := count + 1;
      }
      assert assets[..|assets|] == assets;
      assert Elements(assets) * seen.Keys == Elements(assets);
      RemoveAfterCommit(toRemove);
    }

    method RemoveAfterCommit(names: seq<File>)
      modifies this
      ensures tx == old(tx).(unlink := old(tx).unlink + Elements(names))
    {
      tx := tx.(unlink := tx.unlink + Elements(names));
    }
  }

  lemma DeletingOneMore(rows: map<RowId, Row>, tx: Tx, ids: set<RowId>, r: RowId)
    requires r in Seen(rows, tx) && r !in ids
    ensures r in Seen(rows, DeletedTx(tx, ids)) && Seen(rows, DeletedTx(tx, ids))[r] == Seen(rows, tx)[r]
    ensures DeletedTx(DeletedTx(tx, ids), {r}) == DeletedTx(tx, ids + {r})
  {
    assert tx.added - ids - {r} == tx.added - (ids + {r});
  }

  lemma NextAsset(assets: seq<RowId>, k: nat)
    requires k < |assets| && forall i, j | 0 <= i < j < |assets| :: assets[i] != assets[j]
    ensures Elements(assets[..k + 1]) == Elements(assets[..k]) + {assets[k]}
    ensures assets[k] !in Elements(assets[..k]) && assets[k] in Elements(assets)
  {
    assert assets[..k + 1] == assets[..k] + [assets[k]];
  }

  lemma FilesOfOneMore(rows: map<RowId, Row>, ids: set<RowId>, r: RowId)
    requires r in rows
    ensures FilesOf(rows, ids + {r}) == FilesOf(rows, ids) + Files(rows[r])
  {
  }

  method Names(row: Row) returns (names: seq<File>)
    ensures Elements(names) == Files(row)
  {
    names := [];
    for k := 0 to |row.fields|
      invariant Elements(names) == set i | 0 <= i < k && row.fields[i].Some? :: row.fields[i].value
    {
      ghost var before := names;
      if row.fields[k].Some? {
        names := names + [row.fields[k].value];
        assert Elements(names) == Elements(before) + {row.fields[k].value};
      }
    }
  }
}
