/** Bearer credentials over mint, regenerate, backup and restore. A restore rewinds each member's
    token generation, so a generation seen before can be current again; what keeps old links dead is
    the bump at its end, the rows it replaced, and the sessions and invites it flushed. */
module Credentials {
  import opened Wrappers

  type Raw = nat
  type MemberId = nat

  /** The generation-checked credential rows. */
  datatype Class = ElderLink | ReadLink | ReplyAddress | RecoveryLink

  datatype Row = Row(kind: Class, member: MemberId, mintedGeneration: nat, voided: bool)

  /** An elder session carries the member and the generation it was opened under. */
  datatype Session = Session(member: MemberId, generation: nat)

  datatype Invite = Invite(createdBy: Option<MemberId>, revoked: bool)

  datatype Db = Db(
    generation: map<MemberId, nat>, rows: map<Raw, Row>, sessions: map<Raw, Session>,
    invites: map<Raw, Invite>,
    emailed: map<Raw, MemberId>)  // digest confirm and unsubscribe links: matched by digest alone

  /** `archives` are the backups taken, `owner` says for whom each value so far was drawn, and `dead`
      is what must never open anything again. */
  datatype World = World(db: Db, archives: set<Db>, owner: map<Raw, Option<MemberId>>, dead: set<Raw>)

  // ----- What a raw value opens -----

  predicate RowOpens(db: Db, raw: Raw) {
    raw in db.rows && !db.rows[raw].voided && db.rows[raw].member in db.generation
    && db.rows[raw].mintedGeneration == db.generation[db.rows[raw].member]
  }

  predicate HasElderLink(db: Db, m: MemberId) {
    exists raw | raw in db.rows :: db.rows[raw].kind == ElderLink && db.rows[raw].member == m
  }

  predicate SessionOpens(db: Db, key: Raw) {
    key in db.sessions && db.sessions[key].member in db.generation
    && db.sessions[key].generation == db.generation[db.sessions[key].member]
    && HasElderLink(db, db.sessions[key].member)
  }

  predicate Opens(db: Db, raw: Raw) {
    RowOpens(db, raw) || SessionOpens(db, raw) || (raw in db.invites && !db.invites[raw].revoked)
    || raw in db.emailed
  }

  // ----- The acts -----

  /** A value nobody drew before. */
  predicate Unused(w: World, raw: Raw) { raw !in w.owner }

  function Draw(w: World, raw: Raw, m: Option<MemberId>, db: Db): World {
    w.(db := db, owner := w.owner[raw := m])
  }

  /** One live elder link and one live recovery link per member: minting replaces the elder row and
      supersedes earlier recovery rows. */
  function RowsFor(db: Db, kind: Class, m: MemberId): map<Raw, Row> {
    match kind
    case ElderLink => DeletedRows(db.rows, m, ElderLink)
    case RecoveryLink => VoidedRows(db.rows, m, RecoveryLink)
    case _ => db.rows
  }

  function Minted(w: World, kind: Class, m: MemberId, raw: Raw): World {
    if m !in w.db.generation then w
    else
      var row := Row(kind, m, w.db.generation[m], false);
      Draw(w, raw, Some(m), w.db.(rows := RowsFor(w.db, kind, m)[raw := row]))
  }

  function InviteMinted(w: World, creator: Option<MemberId>, raw: Raw): World {
    Draw(w, raw, creator, w.db.(invites := w.db.invites[raw := Invite(creator, false)]))
  }

  function EmailedLink(w: World, m: MemberId, raw: Raw): World {
    Draw(w, raw, Some(m), w.db.(emailed := w.db.emailed[raw := m]))
  }

  /** `/t/<token>/`: a live elder link opens a session under the member's current generation. */
  function Entered(w: World, link: Raw, key: Raw): World {
    if RowOpens(w.db, link) && w.db.rows[link].kind == ElderLink then
      var m := w.db.rows[link].member;
      Draw(w, key, Some(m), w.db.(sessions := w.db.sessions[key := Session(m, w.db.generation[m])]))
    else w
  }

  /** The regeneration registry on one member, and the bump. Reply addresses are voided, the other
      rows deleted; invites she minted are revoked, other people's are hers to keep. */
  function Revoked(db: Db, m: MemberId): Db
    requires m in db.generation
  {
    Db(db.generation[m := db.generation[m] + 1],
       map r | r in db.rows && (db.rows[r].member != m || db.rows[r].kind == ReplyAddress) ::
         if db.rows[r].member == m then db.rows[r].(voided := true) else db.rows[r],
       db.sessions,
       map r | r in db.invites ::
         if db.invites[r].createdBy == Some(m) then db.invites[r].(revoked := true) else db.invites[r],
       map r | r in db.emailed && db.emailed[r] != m :: db.emailed[r])
  }

  function DeletedRows(rows: map<Raw, Row>, m: MemberId, kind: Class): map<Raw, Row> {
    map r | r in rows && !(rows[r].member == m && rows[r].kind == kind) :: rows[r]
  }

  function VoidedRows(rows: map<Raw, Row>, m: MemberId, kind: Class): map<Raw, Row> {
    map r | r in rows :: if rows[r].member == m && rows[r].kind == kind then rows[r].(voided := true) else rows[r]
  }

  function OwnedBy(w: World, m: MemberId): set<Raw> {
    set r | r in w.owner && w.owner[r] == Some(m)
  }

  function Regenerated(w: World, m: MemberId, raw: Raw): World {
    if m !in w.db.generation then w
    else Minted(w.(db := Revoked(w.db, m), dead := w.dead + OwnedBy(w, m)), ElderLink, m, raw)
  }

  /** The forced security replay: every generation up by one, every session gone, every invite
      revoked, every emailed capability cleared. */
  function Replayed(db: Db): Db {
    Db(map m | m in db.generation :: db.generation[m] + 1, db.rows, map[],
       map r | r in db.invites :: db.invites[r].(revoked := true), map[])
  }

  function BackedUp(w: World): World {
    w.(archives := w.archives + {w.db})
  }

  datatype RestoreFate = Refused | MediaFailed | ReplayFailed | Done

  /** A refused restore changes nothing. One that stops after the database was replaced - over the
      media tree, before the replay is reached, or in the replay - leaves the archive's credentials
      live, so nothing is claimed dead any more. */
  function Restored(w: World, archive: Db, fate: RestoreFate): World {
    match fate
    case Refused => w
    case MediaFailed => w.(db := archive, dead := {})
    case ReplayFailed => w.(db := archive, dead := {})
    case Done => w.(db := Replayed(archive), dead := w.owner.Keys)
  }

  // ----- What every reachable world keeps -----

  type Owners = map<Raw, Option<MemberId>>

  ghost predicate Owned(owner: Owners, r: Raw, m: Option<MemberId>) {
    r in owner && owner[r] == m
  }

  ghost predicate AtMostCurrent(db: Db, m: MemberId, generation: nat) {
    m in db.generation && generation <= db.generation[m]
  }

  ghost predicate RowOk(db: Db, owner: Owners, r: Raw, row: Row) {
    AtMostCurrent(db, row.member, row.mintedGeneration) && Owned(owner, r, Some(row.member))
  }

  ghost predicate SessionOk(db: Db, owner: Owners, r: Raw, s: Session) {
    AtMostCurrent(db, s.member, s.generation) && Owned(owner, r, Some(s.member))
  }

  /** In one database, live or archived: every credential was minted at or below its member's
      generation, and belongs to whom it was drawn for. */
  ghost predicate DbInv(owner: Owners, db: Db) {
    && (forall r | r in db.rows :: RowOk(db, owner, r, db.rows[r]))
    && (forall r | r in db.sessions :: SessionOk(db, owner, r, db.sessions[r]))
    && (forall r | r in db.invites :: Owned(owner, r, db.invites[r].createdBy))
    && (forall r | r in db.emailed :: Owned(owner, r, Some(db.emailed[r])))
  }

  /** Dead for good in this database: not merely closed now, but with nothing left to reopen it. */
  ghost predicate Buried(db: Db, r: Raw) {
    && (r in db.rows ==>
          db.rows[r].voided || (db.rows[r].member in db.generation
                                && db.rows[r].mintedGeneration < db.generation[db.rows[r].member]))
    && (r in db.sessions ==>
          db.sessions[r].member in db.generation && db.sessions[r].generation < db.generation[db.sessions[r].member])
    && (r in db.invites ==> db.invites[r].revoked)
    && r !in db.emailed
  }

  ghost predicate Inv(w: World) {
    && DbInv(w.owner, w.db)
    && (forall a | a in w.archives :: DbInv(w.owner, a))
    && (forall r | r in w.dead :: r in w.owner && Buried(w.db, r))
  }

  lemma BuriedNeverOpens(w: World, r: Raw)
    requires Inv(w) && r in w.dead
    ensures !Opens(w.db, r)
  {
  }

  datatype Act =
    | Mint(kind: Class, m: MemberId, raw: Raw)
    | MintInvite(creator: Option<MemberId>, raw: Raw)
    | Email(m: MemberId, raw: Raw)
    | Enter(link: Raw, key: Raw)
    | Regenerate(m: MemberId, raw: Raw)
    | Join(m: MemberId)
    | Backup
    | Restore(archive: Db, fate: RestoreFate)

  function After(w: World, a: Act): World {
    match a
    case Mint(k, m, raw) => Minted(w, k, m, raw)
    case MintInvite(creator, raw) => InviteMinted(w, creator, raw)
    case Email(m, raw) => EmailedLink(w, m, raw)
    case Enter(link, key) => Entered(w, link, key)
    case Regenerate(m, raw) => Regenerated(w, m, raw)
    case Join(m) => if m in w.db.generation then w else w.(db := w.db.(generation := w.db.generation[m := 1]))
    case Backup => BackedUp(w)
    case Restore(archive, fate) => Restored(w, archive, fate)
  }

  /** Values drawn are new ones, and what is restored is a backup that was taken. */
  predicate CanHappen(w: World, a: Act) {
    match a
    case Mint(_, _, raw) => Unused(w, raw)
    case MintInvite(_, raw) => Unused(w, raw)
    case Email(_, raw) => Unused(w, raw)
    case Enter(_, key) => Unused(w, key)
    case Regenerate(_, raw) => Unused(w, raw)
    case Restore(archive, _) => archive in w.archives
    case _ => true
  }

  predicate CanRun(w: World, acts: seq<Act>)
    decreases |acts|
  {
    acts == [] || (CanHappen(w, acts[0]) && CanRun(After(w, acts[0]), acts[1..]))
  }

  function Run(w: World, acts: seq<Act>): World
    decreases |acts|
  {
    if acts == [] then w else Run(After(w, acts[0]), acts[1..])
  }

  /** A restore that gets past its refusals runs to its end. */
  predicate Finishes(a: Act) { a.Restore? ==> a.fate == Refused || a.fate == Done }

  predicate RestoresFinish(acts: seq<Act>) {
    forall a | a in acts :: Finishes(a)
  }

  lemma OwnersOnlyGrow(owner: Owners, raw: Raw, m: Option<MemberId>, db: Db)
    requires raw !in owner && DbInv(owner, db)
    ensures DbInv(owner[raw := m], db)
  {
    var grown := owner[raw := m];
    assert forall r, o | Owned(owner, r, o) :: Owned(grown, r, o);
    assert forall r | r in db.rows :: RowOk(db, owner, r, db.rows[r]);
    assert forall r | r in db.sessions :: SessionOk(db, owner, r, db.sessions[r]);
  }

  /** Drawing a new value for a row, a session, an invite or an emailed link. */
  lemma DrawingKeepsInv(w: World, raw: Raw, m: Option<MemberId>, db: Db)
    requires Inv(w) && Unused(w, raw)
    requires DbInv(w.owner[raw := m], db)
    requires forall r | r in w.dead && Buried(w.db, r) :: Buried(db, r)
    ensures Inv(Draw(w, raw, m, db))
  {
    forall a | a in w.archives ensures DbInv(w.owner[raw := m], a) {
      OwnersOnlyGrow(w.owner, raw, m, a);
    }
  }

  lemma MintingKeepsInv(w: World, k: Class, m: MemberId, raw: Raw)
    requires Inv(w) && Unused(w, raw)
    ensures Inv(Minted(w, k, m, raw))
  {
    if m in w.db.generation {
      DrawingKeepsInv(w, raw, Some(m), Minted(w, k, m, raw).db);
    }
  }

  lemma RevokingKeepsInv(w: World, m: MemberId)
    requires Inv(w) && m in w.db.generation
    ensures Inv(w.(db := Revoked(w.db, m), dead := w.dead + OwnedBy(w, m)))
  {
    var db := Revoked(w.db, m);
    assert DbInv(w.owner, db);
    forall r | r in w.dead + OwnedBy(w, m) ensures r in w.owner && Buried(db, r) {
    }
  }

  lemma ReplayBuriesEverything(owner: Owners, archive: Db)
    requires DbInv(owner, archive)
    ensures DbInv(owner, Replayed(archive))
    ensures forall r | r in owner :: Buried(Replayed(archive), r)
  {
    var db := Replayed(archive);
    forall r | r in db.rows ensures RowOk(db, owner, r, db.rows[r]) {
      assert RowOk(archive, owner, r, archive.rows[r]);
    }
  }

  lemma JoiningKeepsInv(w: World, m: MemberId)
    requires Inv(w) && m !in w.db.generation
    ensures Inv(w.(db := w.db.(generation := w.db.generation[m := 1])))
  {
    var db := w.db.(generation := w.db.generation[m := 1]);
    forall r | r in db.rows ensures RowOk(db, w.owner, r, db.rows[r]) {
      assert RowOk(w.db, w.owner, r, w.db.rows[r]);
    }
    forall r | r in db.sessions ensures SessionOk(db, w.owner, r, db.sessions[r]) {
      assert SessionOk(w.db, w.owner, r, w.db.sessions[r]);
    }
  }

  lemma InvitingKeepsInv(w: World, creator: Option<MemberId>, raw: Raw)
    requires Inv(w) && Unused(w, raw)
    ensures Inv(InviteMinted(w, creator, raw))
  {
    OwnersOnlyGrow(w.owner, raw, creator, w.db);
    DrawingKeepsInv(w, raw, creator, InviteMinted(w, creator, raw).db);
  }

  lemma EmailingKeepsInv(w: World, m: MemberId, raw: Raw)
    requires Inv(w) && Unused(w, raw)
    ensures Inv(EmailedLink(w, m, raw))
  {
    OwnersOnlyGrow(w.owner, raw, Some(m), w.db);
    DrawingKeepsInv(w, raw, Some(m), EmailedLink(w, m, raw).db);
  }

  lemma EnteringKeepsInv(w: World, link: Raw, key: Raw)
    requires Inv(w) && Unused(w, key)
    ensures Inv(Entered(w, link, key))
  {
    if RowOpens(w.db, link) && w.db.rows[link].kind == ElderLink {
      OwnersOnlyGrow(w.owner, key, Some(w.db.rows[link].member), w.db);
      DrawingKeepsInv(w, key, Some(w.db.rows[link].member), Entered(w, link, key).db);
    }
  }

  lemma RegeneratingKeepsInv(w: World, m: MemberId, raw: Raw)
    requires Inv(w) && Unused(w, raw)
    ensures Inv(Regenerated(w, m, raw))
  {
    if m in w.db.generation {
      RevokingKeepsInv(w, m);
      MintingKeepsInv(w.(db := Revoked(w.db, m), dead := w.dead + OwnedBy(w, m)), ElderLink, m, raw);
    }
  }

  lemma StepKeepsInv(w: World, a: Act)
    requires Inv(w) && CanHappen(w, a)
    ensures Inv(After(w, a))
    ensures Finishes(a) ==> w.dead <= After(w, a).dead
  {
    match a
    case Mint(k, m, raw) => MintingKeepsInv(w, k, m, raw);
    case MintInvite(creator, raw) => InvitingKeepsInv(w, creator, raw);
    case Email(m, raw) => EmailingKeepsInv(w, m, raw);
    case Enter(link, key) => EnteringKeepsInv(w, link, key);
    case Regenerate(m, raw) => RegeneratingKeepsInv(w, m, raw);
    case Join(m) =>
      if m !in w.db.generation {
        JoiningKeepsInv(w, m);
      }
    case Backup =>
    case Restore(archive, fate) => ReplayBuriesEverything(w.owner, archive);
  }

  const NEW_INSTANCE := World(Db(map[], map[], map[], map[], map[]), {}, map[], {})

  /** Every reachable world keeps it; and when restores finish what is dead stays dead. */
  lemma {:induction false} EveryRunKeepsInv(w: World, acts: seq<Act>)
    requires Inv(w) && CanRun(w, acts)
    ensures Inv(Run(w, acts))
    ensures RestoresFinish(acts) ==> w.dead <= Run(w, acts).dead
    decreases |acts|
  {
    if acts != [] {
      StepKeepsInv(w, acts[0]);
      EveryRunKeepsInv(After(w, acts[0]), acts[1..]);
    }
  }

  /** What can bring a value back: a restore cut short, of an archive that holds something to reopen it. */
  ghost predicate Reopens(a: Act, r: Raw) {
    !Finishes(a) && !Buried(a.archive, r)
  }

  /** What ends it for good: a completed restore, or a regenerate of the member it was drawn for. */
  predicate Ends(w: World, a: Act, r: Raw) {
    || (a.Restore? && a.fate == Done)
    || (a.Regenerate? && r in w.owner && w.owner[r] == Some(a.m) && a.m in w.db.generation)
  }

  /** Whether the value may work after the run: something reopened it, and nothing since has ended it. */
  ghost predicate MayWork(w: World, acts: seq<Act>, r: Raw, may: bool)
    decreases |acts|
  {
    if acts == [] then may
    else MayWork(After(w, acts[0]), acts[1..], r, Reopens(acts[0], r) || (may && !Ends(w, acts[0], r)))
  }

  lemma OwnersStay(w: World, a: Act, r: Raw)
    requires CanHappen(w, a) && r in w.owner
    ensures r in After(w, a).owner && After(w, a).owner[r] == w.owner[r]
  {
  }

  /** What is buried stays so, whatever the world counted dead, unless the act reopens it. */
  lemma BuriedStays(w: World, a: Act, r: Raw)
    requires Inv(w) && CanHappen(w, a) && r in w.owner && Buried(w.db, r) && !Reopens(a, r)
    ensures Buried(After(w, a).db, r)
  {
    var counted := w.(dead := {r});
    StepKeepsInv(counted, a);
    assert Finishes(a) ==> r in After(counted, a).dead;
    assert After(counted, a).db == After(w, a).db;
  }

  lemma EndedIsBuried(w: World, a: Act, r: Raw)
    requires Inv(w) && CanHappen(w, a) && r in w.owner && Ends(w, a, r)
    ensures Buried(After(w, a).db, r)
  {
    StepKeepsInv(w, a);
  }

  lemma {:induction false} DeadUnlessReopened(w: World, acts: seq<Act>, r: Raw, may: bool)
    requires Inv(w) && CanRun(w, acts) && r in w.owner && (may || Buried(w.db, r))
    requires !MayWork(w, acts, r, may)
    ensures Buried(Run(w, acts).db, r) && !Opens(Run(w, acts).db, r)
    decreases |acts|
  {
    if acts != [] {
      var a := acts[0];
      StepKeepsInv(w, a);
      OwnersStay(w, a, r);
      if !Reopens(a, r) && !may {
        BuriedStays(w, a, r);
      } else if !Reopens(a, r) && Ends(w, a, r) {
        EndedIsBuried(w, a, r);
      }
      DeadUnlessReopened(After(w, a), acts[1..], r, Reopens(a, r) || (may && !Ends(w, a, r)));
    }
  }

  /** Where every restore finishes nothing is ever reopened. */
  lemma {:induction false} FinishedRestoresReopenNothing(w: World, acts: seq<Act>, r: Raw)
    requires RestoresFinish(acts)
    ensures !MayWork(w, acts, r, false)
    decreases |acts|
  {
    if acts != [] {
      assert acts[0] in acts;
      assert forall a | a in acts[1..] :: a in acts;
      FinishedRestoresReopenNothing(After(w, acts[0]), acts[1..], r);
    }
  }

  /** After a regenerate, nothing drawn for that member before it - her links, her sessions, the invites
      she made - opens anything, through any later backups and restores: unless a restore was cut short
      over an archive that could reopen it, and no completed restore or regenerate has followed. */
  lemma RegeneratedStaysDead(w: World, m: MemberId, newLink: Raw, acts: seq<Act>, oldLink: Raw)
    requires Inv(w) && m in w.db.generation && Unused(w, newLink)
    requires oldLink in w.owner && w.owner[oldLink] == Some(m)
    requires CanRun(Regenerated(w, m, newLink), acts)
    ensures RestoresFinish(acts) ==> !MayWork(Regenerated(w, m, newLink), acts, oldLink, false)
    ensures !MayWork(Regenerated(w, m, newLink), acts, oldLink, false) ==>
              !Opens(Run(Regenerated(w, m, newLink), acts).db, oldLink)
  {
    var after := Regenerated(w, m, newLink);
    StepKeepsInv(w, Regenerate(m, newLink));
    OwnersStay(w, Regenerate(m, newLink), oldLink);
    EndedIsBuried(w, Regenerate(m, newLink), oldLink);
    if RestoresFinish(acts) {
      FinishedRestoresReopenNothing(after, acts, oldLink);
    }
    if !MayWork(after, acts, oldLink, false) {
      DeadUnlessReopened(after, acts, oldLink, false);
    }
  }

  /** After a completed restore, nothing drawn for anybody before it opens anything, under the same
      proviso. */
  lemma RestoredStaysDead(w: World, archive: Db, acts: seq<Act>, oldLink: Raw)
    requires Inv(w) && archive in w.archives && oldLink in w.owner
    requires CanRun(Restored(w, archive, Done), acts)
    ensures RestoresFinish(acts) ==> !MayWork(Restored(w, archive, Done), acts, oldLink, false)
    ensures !MayWork(Restored(w, archive, Done), acts, oldLink, false) ==>
              !Opens(Run(Restored(w, archive, Done), acts).db, oldLink)
  {
    var after := Restored(w, archive, Done);
    StepKeepsInv(w, Restore(archive, Done));
    EndedIsBuried(w, Restore(archive, Done), oldLink);
    if RestoresFinish(acts) {
      FinishedRestoresReopenNothing(after, acts, oldLink);
    }
    if !MayWork(after, acts, oldLink, false) {
      DeadUnlessReopened(after, acts, oldLink, false);
    }
  }

  /** The links handed out by a mint and by a regenerate do work. */
  lemma FreshLinksOpen(w: World, k: Class, m: MemberId, raw: Raw)
    requires m in w.db.generation && Unused(w, raw)
    ensures Opens(Minted(w, k, m, raw).db, raw) && Opens(Regenerated(w, m, raw).db, raw)
  {
  }

  /** A mint leaves one elder link and one working recovery link per member: the earlier ones stop opening.
      Everything else - her other rows, everybody else's - opens as before. */
  lemma MintingReplacesItsOwnKind(w: World, k: Class, m: MemberId, raw: Raw, r: Raw)
    requires m in w.db.generation && Unused(w, raw) && Inv(w) && r in w.db.rows
    ensures var same := w.db.rows[r].member == m && w.db.rows[r].kind == k && (k == ElderLink || k == RecoveryLink);
            && (same ==> !RowOpens(Minted(w, k, m, raw).db, r))
            && (!same ==> (RowOpens(Minted(w, k, m, raw).db, r) <==> RowOpens(w.db, r)))
  {
    assert RowOk(w.db, w.owner, r, w.db.rows[r]);
  }

  /** Entering by a link opens a session under it: a working elder link does, nothing else does. */
  lemma EnteringExactly(w: World, link: Raw, key: Raw)
    requires Inv(w) && Unused(w, key)
    ensures SessionOpens(Entered(w, link, key).db, key) <==>
            && link in w.db.rows && w.db.rows[link].kind == ElderLink && !w.db.rows[link].voided
            && w.db.rows[link].member in w.db.generation
            && w.db.rows[link].mintedGeneration == w.db.generation[w.db.rows[link].member]
  {
    assert key in w.db.sessions ==> SessionOk(w.db, w.owner, key, w.db.sessions[key]);
  }

  /** A session outlives neither its generation nor the last link row of its member. */
  lemma SessionNeedsItsLink(db: Db, key: Raw)
    requires key in db.sessions
    ensures SessionOpens(db, key) ==>
              && db.sessions[key].member in db.generation
              && db.generation[db.sessions[key].member] == db.sessions[key].generation
              && exists r :: r in db.rows && db.rows[r].kind == ElderLink
                             && db.rows[r].member == db.sessions[key].member
  {
  }

  /** Invites and emailed links work from when they are made. */
  lemma NewInvitesAndEmailedLinksOpen(w: World, creator: Option<MemberId>, m: MemberId, raw: Raw)
    requires Unused(w, raw)
    ensures Opens(InviteMinted(w, creator, raw).db, raw) && Opens(EmailedLink(w, m, raw).db, raw)
  {
  }

  /** A regenerate is hers alone: whatever was drawn for anybody else works afterwards exactly if it worked
      before. */
  lemma RegenerateSparesTheOthers(w: World, m: MemberId, newLink: Raw, r: Raw)
    requires Inv(w) && m in w.db.generation && Unused(w, newLink) && r in w.owner && w.owner[r] != Some(m)
    ensures Opens(Regenerated(w, m, newLink).db, r) <==> Opens(w.db, r)
  {
    var db := Regenerated(w, m, newLink).db;
    assert r != newLink;
    if r in w.db.rows {
      assert RowOk(w.db, w.owner, r, w.db.rows[r]);
    }
    assert RowOpens(db, r) <==> RowOpens(w.db, r);
    if r in w.db.sessions {
      OthersKeepTheirLink(w, m, newLink, w.db.sessions[r].member, r);
    }
    assert SessionOpens(db, r) <==> SessionOpens(w.db, r);
  }

  lemma OthersKeepTheirLink(w: World, m: MemberId, newLink: Raw, other: MemberId, r: Raw)
    requires Inv(w) && m in w.db.generation && Unused(w, newLink)
    requires r in w.db.sessions && w.db.sessions[r].member == other && w.owner[r] != Some(m)
    ensures other != m
    ensures HasElderLink(Regenerated(w, m, newLink).db, other) <==> HasElderLink(w.db, other)
  {
    assert SessionOk(w.db, w.owner, r, w.db.sessions[r]);
    var db := Regenerated(w, m, newLink).db;
    if raw :| raw in w.db.rows && w.db.rows[raw].kind == ElderLink && w.db.rows[raw].member == other {
      assert RowOk(w.db, w.owner, raw, w.db.rows[raw]);
      assert raw in db.rows && db.rows[raw] == w.db.rows[raw];
    }
    if raw :| raw in db.rows && db.rows[raw].kind == ElderLink && db.rows[raw].member == other {
      assert raw in w.db.rows && w.db.rows[raw] == db.rows[raw];
    }
  }

  /** Why the counter alone is not enough: back up, regenerate, restore - and the generation the new link
      was minted under is current again, with the link dead all the same. */
  lemma GenerationsRecur(before: World, m: MemberId, link: Raw)
    requires Inv(before) && m in before.db.generation && Unused(before, link)
    ensures var saved := BackedUp(before);
            var w := Regenerated(saved, m, link);
            var after := Restored(w, before.db, Done).db;
            && Inv(w) && CanHappen(w, Restore(before.db, Done)) && Opens(w.db, link)
            && m in after.generation && after.generation[m] == w.db.rows[link].mintedGeneration
            && !Opens(after, link)
  {
    var saved := BackedUp(before);
    var w := Regenerated(saved, m, link);
    assert Inv(saved);
    StepKeepsInv(saved, Regenerate(m, link));
    FreshLinksOpen(saved, ElderLink, m, link);
    EndedIsBuried(w, Restore(before.db, Done), link);
  }

  /** Mint, back up, regenerate: the archive holds a working link that is dead by now. */
  lemma SavedThenRegenerated(start: World, m: MemberId, link: Raw, newLink: Raw) returns (w: World, archive: Db)
    requires Inv(start) && m in start.db.generation && link != newLink
    requires Unused(start, link) && Unused(start, newLink)
    ensures Inv(w) && archive in w.archives && link in w.dead && Opens(archive, link)
  {
    StepKeepsInv(start, Mint(ElderLink, m, link));
    FreshLinksOpen(start, ElderLink, m, link);
    var minted := Minted(start, ElderLink, m, link);
    var saved := BackedUp(minted);
    assert Inv(saved);
    StepKeepsInv(saved, Regenerate(m, newLink));
    w, archive := Regenerated(saved, m, newLink), minted.db;
  }

  /** And what the loud error is about: a restore whose replay fails brings a dead link back - as does,
      without that error, one that fails over the media tree just before. */
  lemma UnfinishedRestoreRevives() returns (w: World, archive: Db, link: Raw)
    ensures Inv(w) && archive in w.archives && link in w.dead && !Opens(w.db, link)
    ensures Opens(Restored(w, archive, ReplayFailed).db, link)
    ensures Opens(Restored(w, archive, MediaFailed).db, link)
  {
    var start := NEW_INSTANCE.(db := NEW_INSTANCE.db.(generation := map[5 := 1]));
    w, archive := SavedThenRegenerated(start, 5, 0, 1);
    link := 0;
    BuriedNeverOpens(w, link);
  }

  /** Exactly when a restore leaves nothing drawn before it working: it ran to its end, or the
      archive held no working credential to bring back. */
  lemma RestoreEndsEverythingExactly(w: World, archive: Db, fate: RestoreFate)
    requires Inv(w) && archive in w.archives && fate != Refused
    ensures (forall r | r in w.owner :: !Opens(Restored(w, archive, fate).db, r)) <==>
            fate == Done || forall r: Raw :: !Opens(archive, r)
  {
    if fate == Done {
      StepKeepsInv(w, Restore(archive, Done));
      forall r | r in w.owner ensures !Opens(Restored(w, archive, fate).db, r) {
        BuriedNeverOpens(Restored(w, archive, fate), r);
      }
    } else {
      forall r: Raw | Opens(archive, r) ensures r in w.owner {
        WhatOpensWasDrawn(w.owner, archive, r);
      }
    }
  }

  lemma WhatOpensWasDrawn(owner: Owners, db: Db, r: Raw)
    requires DbInv(owner, db) && Opens(db, r)
    ensures r in owner
  {
    if r in db.rows {
      assert RowOk(db, owner, r, db.rows[r]);
    } else if r in db.sessions {
      assert SessionOk(db, owner, r, db.sessions[r]);
    }
  }

  // ----- The phased restore -----

  /** What a tar header announces. */
  datatype TarMember = TarMember(size: nat, regular: bool)

  const GIB := 1024 * 1024 * 1024
  const MAX_RESTORED_MEMBER_BYTES := 16 * GIB
  const MAX_RESTORED_MEDIA_BYTES := 200 * GIB
  const RESTORE_FREE_SPACE_RESERVE_BYTES := GIB

  function TotalSize(members: seq<TarMember>): nat {
    if members == [] then 0
    else TotalSize(members[..|members| - 1])
         + if members[|members| - 1].regular then members[|members| - 1].size else 0
  }

  /** The announced total: sums over the parts, the regular files and no others. */
  lemma {:induction false} TotalSizeAdds(a: seq<TarMember>, b: seq<TarMember>)
    ensures TotalSize(a + b) == TotalSize(a) + TotalSize(b)
    ensures forall m: TarMember :: TotalSize([m]) == if m.regular then m.size else 0
  {
    assert forall m: TarMember :: [m][..0] == [];
    if b == [] {
      assert a + b == a;
    } else {
      TotalSizeAdds(a, b[..|b| - 1]);
      assert (a + b)[..|a + b| - 1] == a + b[..|b| - 1];
    }
  }

  /** Over the ceiling per file, in total, or for what the volume can hold; `free` is None where that
      cannot be measured. */
  predicate Oversized(members: seq<TarMember>, free: Option<nat>) {
    || (exists m | m in members :: m.regular && m.size > MAX_RESTORED_MEMBER_BYTES)
    || TotalSize(members) > MAX_RESTORED_MEDIA_BYTES
    || (free.Some? && TotalSize(members) > free.value - RESTORE_FREE_SPACE_RESERVE_BYTES)
  }

  /** The registry's four statements, seen at one row. */
  lemma OneRowRevoked(rows: map<Raw, Row>, m: MemberId, r: Raw)
    ensures var some := VoidedRows(DeletedRows(rows, m, ReadLink), m, ReplyAddress);
            var left := DeletedRows(DeletedRows(some, m, ElderLink), m, RecoveryLink);
            && (r in left <==> r in rows && (rows[r].member != m || rows[r].kind == ReplyAddress))
            && (r in left ==> left[r] == if rows[r].member == m then rows[r].(voided := true) else rows[r])
  {
  }

  class Instance {
    var w: World

    /** The ceilings, from the headers alone, before anything is written. */
    method RefuseAnOversizedExtraction(members: seq<TarMember>, free: Option<nat>) returns (refused: bool)
      ensures refused <==> Oversized(members, free)
      ensures refused <==>
              || (exists m | m in members :: m.regular && m.size > 17179869184)
              || TotalSize(members) > 214748364800
              || (free.Some? && TotalSize(members) + 1073741824 > free.value)
    {
      var total := 0;
      for k := 0 to |members|
        invariant total == TotalSize(members[..k])
        invariant forall m | m in members[..k] :: m.regular ==> m.size <= MAX_RESTORED_MEMBER_BYTES
      {
        assert members[..k + 1][..k] == members[..k];
        if members[k].regular {
          if members[k].size > MAX_RESTORED_MEMBER_BYTES {
            return true;
          }
          total := total + members[k].size;
        }
      }
      assert members[..|members|] == members;
      if total > MAX_RESTORED_MEDIA_BYTES { return true; }
      if free.None? { return false; }
      return total > free.value - RESTORE_FREE_SPACE_RESERVE_BYTES;
    }

    /** Refusals first, while nothing has been written: a database with members, the archive's two outer
        files, then the media tree inside. Then the database is replaced; then the media tree; then the
        security half, update by update. */
    method Restore(archive: Db, force: bool, outer: seq<TarMember>, freeForOuter: Option<nat>,
                   media: seq<TarMember>, freeForMedia: Option<nat>, mediaSwapped: bool, replayCompletes: bool)
      returns (fate: RestoreFate)
      modifies this
      ensures fate == Refused <==> || (!force && old(w.db.generation) != map[])
                                   || Oversized(outer, freeForOuter) || Oversized(media, freeForMedia)
      ensures fate == MediaFailed <==> fate != Refused && !mediaSwapped
      ensures fate == Done <==> fate != Refused && mediaSwapped && replayCompletes
      ensures w == Restored(old(w), archive, fate)
    {
      if !force && w.db.generation != map[] { return Refused; }
      var refused := RefuseAnOversizedExtraction(outer, freeForOuter);
      if refused { return Refused; }
      refused := RefuseAnOversizedExtraction(media, freeForMedia);
      if refused { return Refused; }
      w := w.(db := archive);
      if !mediaSwapped {
        w := w.(dead := {});
        return MediaFailed;
      }
      if !replayCompletes {
        w := w.(dead := {});
        return ReplayFailed;
      }
      var bumped := map m | m in w.db.generation :: w.db.generation[m] + 1;
      w := w.(db := w.db.(generation := bumped));
      w := w.(db := w.db.(sessions := map[]));
      var voided := map r | r in w.db.invites :: w.db.invites[r].(revoked := true);
      w := w.(db := w.db.(invites := voided));
      w := w.(db := w.db.(emailed := map[]));
      w := w.(dead := w.owner.Keys);
      return Done;
    }

    /** Regenerate: the registry step by step, the bump, and a fresh link under the new generation. */
    method Regenerate(m: MemberId, raw: Raw)
      requires Unused(w, raw) && m in w.db.generation
      modifies this
      ensures w == Regenerated(old(w), m, raw)
    {
      var db := RevokeAll(w.db, m);
      w := w.(db := db, dead := w.dead + OwnedBy(w, m));
      Mint(ElderLink, m, raw);
    }

    /** The registry on one member, step by step, then the bump. */
    static method RevokeAll(db: Db, m: MemberId) returns (revoked: Db)
      requires m in db.generation
      ensures revoked == Revoked(db, m)
    {
      var invites := map r | r in db.invites ::
        if db.invites[r].createdBy == Some(m) then db.invites[r].(revoked := true) else db.invites[r];
      var emailed := map r | r in db.emailed && db.emailed[r] != m :: db.emailed[r];
      var rows := RevokeRows(db.rows, m);
      revoked := Db(db.generation[m := db.generation[m] + 1], rows, db.sessions, invites, emailed);
    }

    static method RevokeRows(rows: map<Raw, Row>, m: MemberId) returns (left: map<Raw, Row>)
      ensures left == map r | r in rows && (rows[r].member != m || rows[r].kind == ReplyAddress) ::
                        if rows[r].member == m then rows[r].(voided := true) else rows[r]
    {
      var noReads := DeletedRows(rows, m, ReadLink);
      var noReplies := VoidedRows(noReads, m, ReplyAddress);
      var noElder := DeletedRows(noReplies, m, ElderLink);
      left := DeletedRows(noElder, m, RecoveryLink);
      forall r: Raw
        ensures r in left <==> r in rows && (rows[r].member != m || rows[r].kind == ReplyAddress)
        ensures r in left ==> left[r] == if rows[r].member == m then rows[r].(voided := true) else rows[r]
      {
        OneRowRevoked(rows, m, r);
      }
    }

    method Mint(kind: Class, m: MemberId, raw: Raw)
      requires m in w.db.generation
      modifies this
      ensures w == Minted(old(w), kind, m, raw)
    {
      var row := Row(kind, m, w.db.generation[m], false);
      var rows := RowsFor(w.db, kind, m);
      w := Draw(w, raw, Some(m), w.db.(rows := rows[raw := row]));
    }
  }
}
