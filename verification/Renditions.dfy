/** A video's rendition is written while its post may be going: one purge of the row, one transcode of it,
    in any interleaving and each possibly cut short, and what is left on the disk. */
module Renditions {

  type File = nat

  /** The purge reads what the row names, and later deletes the row and unlinks what it read. */
  datatype Purge = NotYet | HasRead(names: set<File>) | Purged

  /** The transcode looks once more whether the row is there, writes its files, and names them in the row. */
  datatype Job = Transcoding | Checked | Written | Named | GaveUp

  /** The row's names while it is there, and the files of this row on the disk. */
  datatype State = State(there: bool, names: set<File>, disk: set<File>, purge: Purge, job: Job)

  datatype Event = Read | Delete | Check | Write | Name

  predicate CanHappen(s: State, e: Event) {
    match e
    case Read => s.purge.NotYet?
    case Delete => s.purge.HasRead?
    case Check => s.job.Transcoding?
    case Write => s.job.Checked?
    case Name => s.job.Written?
  }

  /** Naming the files in a row that has gone by then updates nothing. */
  function Step(s: State, e: Event, rendition: set<File>): State
    requires CanHappen(s, e)
  {
    match e
    case Read => s.(purge := HasRead(s.names))
    case Delete => s.(there := false, names := {}, disk := s.disk - s.purge.names, purge := Purged)
    case Check => s.(job := if s.there then Checked else GaveUp)
    case Write => s.(disk := s.disk + rendition, job := Written)
    case Name => s.(names := if s.there then s.names + rendition else s.names, job := Named)
  }

  predicate CanRun(source: set<File>, rendition: set<File>, events: seq<Event>)
    decreases |events|, 0
  {
    events == [] || (CanRun(source, rendition, events[..|events| - 1])
                     && CanHappen(Run(source, rendition, events[..|events| - 1]), events[|events| - 1]))
  }

  /** From an uploaded video: its source file stored and named. */
  function Run(source: set<File>, rendition: set<File>, events: seq<Event>): State
    requires CanRun(source, rendition, events)
    decreases |events|, 1
  {
    if events == [] then State(true, source, source, NotYet, Transcoding)
    else Step(Run(source, rendition, events[..|events| - 1]), events[|events| - 1], rendition)
  }

  /** Some `b` has an `a` before it. */
  predicate Precedes(events: seq<Event>, a: Event, b: Event) {
    events != []
    && (Precedes(events[..|events| - 1], a, b)
        || (events[|events| - 1] == b && a in events[..|events| - 1]))
  }

  /** What of the run so far decides what is on the disk. */
  datatype Facts = Facts(written: bool, named: bool, deleted: bool, namedFirst: bool)

  function FactsOf(events: seq<Event>): Facts {
    Facts(Write in events, Name in events, Delete in events, Precedes(events, Name, Read))
  }

  ghost predicate Tracks(source: set<File>, rendition: set<File>, f: Facts, s: State) {
    && (f.deleted <==> s.purge.Purged?) && (f.named <==> s.job.Named?)
    && (f.written <==> s.job.Written? || s.job.Named?)
    && (s.there <==> !s.purge.Purged?) && (s.purge.NotYet? ==> !f.namedFirst)
    && (!s.purge.Purged? ==>
          && s.names == source + (if f.named then rendition else {})
          && s.disk == source + (if f.written then rendition else {}))
    && (s.purge.HasRead? ==> s.purge.names == source + (if f.namedFirst then rendition else {}))
    && (f.namedFirst ==> f.named) && (f.named ==> f.written)
    && (s.purge.Purged? ==> s.disk == if f.written && !f.namedFirst then rendition else {})
  }

  function Next(f: Facts, e: Event): Facts {
    Facts(f.written || e == Write, f.named || e == Name, f.deleted || e == Delete,
          f.namedFirst || (e == Read && f.named))
  }

  lemma FactsSnoc(events: seq<Event>)
    requires events != []
    ensures FactsOf(events) == Next(FactsOf(events[..|events| - 1]), events[|events| - 1])
  {
    assert events == events[..|events| - 1] + [events[|events| - 1]];
  }

  lemma StepTracks(source: set<File>, rendition: set<File>, f: Facts, s: State, e: Event)
    requires source !! rendition && Tracks(source, rendition, f, s) && CanHappen(s, e)
    ensures Tracks(source, rendition, Next(f, e), Step(s, e, rendition))
  {
  }

  lemma {:induction false} RunTracks(source: set<File>, rendition: set<File>, events: seq<Event>)
    requires CanRun(source, rendition, events) && source !! rendition
    ensures Tracks(source, rendition, FactsOf(events), Run(source, rendition, events))
    decreases |events|
  {
    if events != [] {
      var rest, last := events[..|events| - 1], events[|events| - 1];
      RunTracks(source, rendition, rest);
      FactsSnoc(events);
      StepTracks(source, rendition, FactsOf(rest), Run(source, rendition, rest), last);
    }
  }

  /** Once the row is purged, the files it left behind are all gone exactly when the rendition was never
      written, or the row already named it when the purge read the row. (The second look before writing
      rules out only a row gone by then.) */
  lemma PurgeCoversTheRenditionExactly(source: set<File>, rendition: set<File>, events: seq<Event>)
    requires CanRun(source, rendition, events) && source !! rendition && rendition != {} && Delete in events
    ensures Run(source, rendition, events).disk == {} <==>
            Write !in events || Precedes(events, Name, Read)
    ensures Run(source, rendition, events).disk <= rendition
  {
    RunTracks(source, rendition, events);
  }

  /** The input on which it stays: the row is there when looked for, and gone when the files are written. */
  lemma ARenditionMayBeOrphaned(source: set<File>, rendition: set<File>)
    requires source !! rendition && rendition != {}
    ensures var events := [Check, Read, Delete, Write];
            && CanRun(source, rendition, events) && !Run(source, rendition, events).there
            && Run(source, rendition, events).disk == rendition
  {
    var e3, e2, e1 := [Check, Read, Delete], [Check, Read], [Check];
    assert [Check, Read, Delete, Write][..3] == e3 && e3[..2] == e2 && e2[..1] == e1 && e1[..0] == [];
    assert CanRun(source, rendition, []) && CanRun(source, rendition, e1) && CanRun(source, rendition, e2)
        && CanRun(source, rendition, e3);
  }
}
