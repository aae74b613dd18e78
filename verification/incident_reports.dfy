/**
 What becomes of an upsert's report: the timeline event a job inserts after it, and the trigger it
 raises after that. Jobs interleave and may end between any two of these steps.
 */
module IncidentReports {
  import opened Wrappers
  import I = Incidents
  import opened Incidents

  /** What a worker still has to do after its upsert: insert a timeline event, then raise a trigger, if any. */
  datatype Note = Note(event: EventType, trigger: Option<Trigger>)

  /**
   The notes of workers whose event is not inserted yet, those of workers that owe their trigger, and
   what was inserted and raised. `lost` are the triggers of jobs that ended before raising them.
   */
  datatype Told = Told(
    unrecorded: map<nat, Note>,
    owed: map<nat, Note>,
    timeline: multiset<EventType>,
    raised: multiset<Trigger>,
    lost: multiset<Trigger>)

  ghost function Dues(trigger: Option<Trigger>): multiset<Trigger> {
    if trigger.Some? then multiset{trigger.value} else multiset{}
  }

  ghost function DuesOf(notes: map<nat, Note>, worker: nat): multiset<Trigger> {
    if worker in notes then Dues(notes[worker].trigger) else multiset{}
  }

  ghost function NoteOf(h: Held): Option<Note> {
    var event := EventFor(h.existing, h.input);
    if event.Some? then Some(Note(event.value, AlertTriggerFor(h.existing, h.input))) else None
  }

  /** A job that ends, or whose worker starts another one, takes its notes with it. */
  ghost function Forgotten(d: Told, worker: nat): Told {
    d.(unrecorded := d.unrecorded - {worker}, owed := d.owed - {worker},
       lost := d.lost + DuesOf(d.unrecorded, worker) + DuesOf(d.owed, worker))
  }

  ghost function Noted(d: Told, worker: nat, h: Held): Told {
    if NoteOf(h).None? then d else d.(unrecorded := d.unrecorded[worker := NoteOf(h).value])
  }

  ghost function Recorded(d: Told, worker: nat): Told {
    if worker !in d.unrecorded then d
    else
      var note := d.unrecorded[worker];
      d.(unrecorded := d.unrecorded - {worker}, timeline := d.timeline + multiset{note.event},
         owed := if note.trigger.Some? then d.owed[worker := note] else d.owed)
  }

  ghost function RaisedBy(d: Told, worker: nat): Told {
    d.(owed := d.owed - {worker}, raised := d.raised + DuesOf(d.owed, worker))
  }

  /** What one step does, with `w` the state of the row and the readers before it. */
  ghost function Next(w: World, d: Told, s: Step): Told {
    match s
    case Read(worker, _) => Forgotten(d, worker)
    case Upsert(worker) => if worker in w.held then Noted(d, worker, w.held[worker]) else d
    case Record(worker) => Recorded(d, worker)
    case Raise(worker) => RaisedBy(d, worker)
    case Abandon(worker) => Forgotten(d, worker)
    case Operate(_, _) => d
  }

  ghost function NoTold(): Told {
    Told(map[], map[], multiset{}, multiset{}, multiset{})
  }

  ghost function Run(steps: seq<Step>): Told {
    if steps == [] then NoTold()
    else
      var front := steps[..|steps| - 1];
      Next(I.Run(front), Run(front), steps[|steps| - 1])
  }

  // ---------------------------------------------------------------- who raises what

  /** Whether the last read of a worker gives it reason to raise a trigger, by the history alone. */
  ghost predicate Reason(steps: seq<Step>, worker: nat, t: Trigger) {
    var r := LastRead(steps, worker);
    r < |steps| &&
    var row := I.Run(steps[..r]).row;
    match t
    case RaiseCreated => Performed(steps[..r]) == 0
    case RaiseReopened => row.Some? && row.value.status.RESOLVED?
    case RaiseSeverityIncreased =>
      row.Some? && !row.value.status.RESOLVED? && Rank(steps[r].input.severity) > Rank(row.value.severity)
  }

  /** Under every interleaving what a worker will raise is decided by its last read, not by the row it writes. */
  lemma TriggerIsDecidedByRead(steps: seq<Step>, worker: nat, t: Trigger)
    requires worker in I.Run(steps).held
    ensures AlertTriggerFor(I.Run(steps).held[worker].existing, I.Run(steps).held[worker].input) == Some(t)
            <==> Reason(steps, worker, t)
  {
    HeldSinceLastRead(steps, worker);
    NoIncrementIsLost(steps[..LastRead(steps, worker)]);
  }

  /** How many upserts of a run had reason to raise a trigger. */
  ghost function Due(steps: seq<Step>, t: Trigger): nat {
    if steps == [] then 0
    else
      var front, last := steps[..|steps| - 1], steps[|steps| - 1];
      Due(front, t) + if Upserts(I.Run(front), last) && Reason(front, last.worker, t) then 1 else 0
  }

  /** The workers whose note carries this trigger. */
  ghost function Owing(notes: map<nat, Note>, t: Trigger): nat {
    |Carriers(notes, t)|
  }

  ghost function Carriers(notes: map<nat, Note>, t: Trigger): set<nat> {
    set k | k in notes && notes[k].trigger == Some(t)
  }

  lemma OwingLess(notes: map<nat, Note>, k: nat, t: Trigger)
    ensures Owing(notes, t) == Owing(notes - {k}, t) + DuesOf(notes, k)[t]
  {
    assert Carriers(notes - {k}, t) == Carriers(notes, t) - {k};
  }

  lemma OwingMore(notes: map<nat, Note>, k: nat, note: Note, t: Trigger)
    requires k !in notes
    ensures Owing(notes[k := note], t) == Owing(notes, t) + Dues(note.trigger)[t]
  {
    assert notes[k := note] - {k} == notes;
    OwingLess(notes[k := note], k, t);
  }

  /** Still to be raised, raised, or lost. */
  ghost function Outstanding(d: Told, t: Trigger): nat {
    Owing(d.unrecorded, t) + Owing(d.owed, t)
  }

  ghost function AllTold(d: Told, t: Trigger): nat {
    Outstanding(d, t) + d.raised[t] + d.lost[t]
  }

  /** Which timeline event goes with a trigger. */
  ghost function EventOf(t: Trigger): EventType {
    match t
    case RaiseCreated => CREATED
    case RaiseSeverityIncreased => UPDATED
    case RaiseReopened => STATUS_CHANGED
  }

  /** A worker is in one phase at a time, and a trigger goes with its event. */
  ghost predicate Orderly(w: World, d: Told) {
    && w.held.Keys !! d.unrecorded.Keys !! d.owed.Keys
    && (forall k :: k in d.unrecorded ==> GoesWith(d.unrecorded[k]))
    && forall t :: RecordedFirst(d, t)
  }

  ghost predicate GoesWith(note: Note) {
    note.trigger.Some? ==> note.event == EventOf(note.trigger.value)
  }

  ghost predicate RecordedFirst(d: Told, t: Trigger) {
    d.raised[t] + Owing(d.owed, t) <= d.timeline[EventOf(t)]
  }

  lemma ForgettingLosesAsMuch(d: Told, worker: nat, t: Trigger)
    ensures AllTold(Forgotten(d, worker), t) == AllTold(d, t)
    ensures Owing(d.owed - {worker}, t) <= Owing(d.owed, t)
  {
    OwingLess(d.unrecorded, worker, t);
    OwingLess(d.owed, worker, t);
  }

  lemma RecordingKeepsAll(d: Told, worker: nat, t: Trigger)
    requires d.unrecorded.Keys !! d.owed.Keys
    ensures AllTold(Recorded(d, worker), t) == AllTold(d, t)
    ensures worker in d.unrecorded ==>
              Owing(Recorded(d, worker).owed, t) == Owing(d.owed, t) + Dues(d.unrecorded[worker].trigger)[t]
  {
    if worker in d.unrecorded {
      OwingLess(d.unrecorded, worker, t);
      OwingMore(d.owed, worker, d.unrecorded[worker], t);
    }
  }

  lemma RaisingKeepsAll(d: Told, worker: nat, t: Trigger)
    ensures AllTold(RaisedBy(d, worker), t) == AllTold(d, t)
    ensures RaisedBy(d, worker).raised[t] + Owing(RaisedBy(d, worker).owed, t) == d.raised[t] + Owing(d.owed, t)
  {
    OwingLess(d.owed, worker, t);
  }

  lemma NotingAddsOne(d: Told, worker: nat, h: Held, t: Trigger)
    requires worker !in d.unrecorded
    ensures AllTold(Noted(d, worker, h), t)
         == AllTold(d, t) + if AlertTriggerFor(h.existing, h.input) == Some(t) then 1 else 0
  {
    if NoteOf(h).Some? {
      OwingMore(d.unrecorded, worker, NoteOf(h).value, t);
    }
  }

  lemma StepRecordsFirst(w: World, d: Told, s: Step, t: Trigger)
    requires Orderly(w, d)
    ensures RecordedFirst(Next(w, d, s), t)
  {
    assert RecordedFirst(d, t);
    match s
    case Read(worker, _) => ForgettingLosesAsMuch(d, worker, t);
    case Upsert(worker) =>
    case Record(worker) => RecordingKeepsAll(d, worker, t);
    case Raise(worker) => RaisingKeepsAll(d, worker, t);
    case Abandon(worker) => ForgettingLosesAsMuch(d, worker, t);
    case Operate(_, _) =>
  }

  lemma StepIsOrderly(w: World, d: Told, s: Step)
    requires Orderly(w, d)
    ensures Orderly(I.Next(w, s), Next(w, d, s))
  {
    forall t ensures RecordedFirst(Next(w, d, s), t) {
      StepRecordsFirst(w, d, s, t);
    }
  }

  lemma {:induction false} EveryInterleavingIsOrderly(steps: seq<Step>)
    ensures Orderly(I.Run(steps), Run(steps))
  {
    if steps == [] {
      assert forall t :: Owing(map[], t) == 0;
    } else {
      EveryInterleavingIsOrderly(steps[..|steps| - 1]);
      StepIsOrderly(I.Run(steps[..|steps| - 1]), Run(steps[..|steps| - 1]), steps[|steps| - 1]);
    }
  }

  /** Under every interleaving a trigger is only raised after its timeline event was inserted. */
  lemma TriggersAreRecordedFirst(steps: seq<Step>, t: Trigger)
    ensures Run(steps).raised[t] <= Run(steps).timeline[EventOf(t)]
  {
    EveryInterleavingIsOrderly(steps);
    assert RecordedFirst(Run(steps), t);
  }

  lemma StepTellsDue(w: World, d: Told, s: Step, t: Trigger)
    requires Orderly(w, d)
    ensures AllTold(Next(w, d, s), t) == AllTold(d, t)
              + if Upserts(w, s) && AlertTriggerFor(w.held[s.worker].existing, w.held[s.worker].input) == Some(t)
                  then 1 else 0
  {
    match s
    case Read(worker, _) => ForgettingLosesAsMuch(d, worker, t);
    case Upsert(worker) => if worker in w.held { NotingAddsOne(d, worker, w.held[worker], t); }
    case Record(worker) => RecordingKeepsAll(d, worker, t);
    case Raise(worker) => RaisingKeepsAll(d, worker, t);
    case Abandon(worker) => ForgettingLosesAsMuch(d, worker, t);
    case Operate(_, _) =>
  }

  /**
   How often a trigger is raised in any interleaving: every upsert whose read gave reason for it has
   raised it, still owes it, or lost it with its job.
   */
  lemma {:induction false} TriggersAreAccountedFor(steps: seq<Step>, t: Trigger)
    ensures AllTold(Run(steps), t) == Due(steps, t)
  {
    if steps == [] {
      assert Owing(map[], t) == 0;
    } else {
      var front, last := steps[..|steps| - 1], steps[|steps| - 1];
      TriggersAreAccountedFor(front, t);
      EveryInterleavingIsOrderly(front);
      StepTellsDue(I.Run(front), Run(front), last, t);
      if Upserts(I.Run(front), last) {
        TriggerIsDecidedByRead(front, last.worker, t);
      }
    }
  }

  // ---------------------------------------------------------------- the timeline

  /** Whether a step is an upsert with this event to insert. */
  ghost function EventDue(w: World, s: Step, e: EventType): nat {
    if Upserts(w, s) && EventFor(w.held[s.worker].existing, w.held[s.worker].input) == Some(e) then 1 else 0
  }

  /** Whether a step ends a job that has not inserted this event yet. */
  ghost function EventLost(d: Told, s: Step, e: EventType): nat {
    if (s.Read? || s.Abandon?) && s.worker in d.unrecorded && d.unrecorded[s.worker].event == e then 1 else 0
  }

  ghost function EventsDue(steps: seq<Step>, e: EventType): nat {
    if steps == [] then 0
    else
      var front := steps[..|steps| - 1];
      EventsDue(front, e) + EventDue(I.Run(front), steps[|steps| - 1], e)
  }

  ghost function EventsLost(steps: seq<Step>, e: EventType): nat {
    if steps == [] then 0
    else
      var front := steps[..|steps| - 1];
      EventsLost(front, e) + EventLost(Run(front), steps[|steps| - 1], e)
  }

  ghost function Carrying(notes: map<nat, Note>, e: EventType): set<nat> {
    set k | k in notes && notes[k].event == e
  }

  /** Inserted, or about to be. */
  ghost function EventsTold(d: Told, e: EventType): nat {
    d.timeline[e] + |Carrying(d.unrecorded, e)|
  }

  lemma CarryingLess(notes: map<nat, Note>, k: nat, e: EventType)
    ensures |Carrying(notes, e)| == |Carrying(notes - {k}, e)| + if k in notes && notes[k].event == e then 1 else 0
  {
    assert Carrying(notes - {k}, e) == Carrying(notes, e) - {k};
  }

  lemma CarryingMore(notes: map<nat, Note>, k: nat, note: Note, e: EventType)
    requires k !in notes
    ensures |Carrying(notes[k := note], e)| == |Carrying(notes, e)| + if note.event == e then 1 else 0
  {
    assert notes[k := note] - {k} == notes;
    CarryingLess(notes[k := note], k, e);
  }

  lemma StepTellsEvents(w: World, d: Told, s: Step, e: EventType)
    requires Orderly(w, d)
    ensures EventsTold(Next(w, d, s), e) + EventLost(d, s, e) == EventsTold(d, e) + EventDue(w, s, e)
  {
    match s
    case Read(worker, _) => CarryingLess(d.unrecorded, worker, e);
    case Upsert(worker) =>
      if worker in w.held && NoteOf(w.held[worker]).Some? {
        CarryingMore(d.unrecorded, worker, NoteOf(w.held[worker]).value, e);
      }
    case Record(worker) => CarryingLess(d.unrecorded, worker, e);
    case Raise(_) =>
    case Abandon(worker) => CarryingLess(d.unrecorded, worker, e);
    case Operate(_, _) =>
  }

  /**
   The workers' events on the timeline under every interleaving: each upsert that had one to insert has
   inserted it once, is about to, or its job ended before.
   */
  lemma {:induction false} EventsAreInsertedOnce(steps: seq<Step>, e: EventType)
    ensures EventsTold(Run(steps), e) + EventsLost(steps, e) == EventsDue(steps, e)
  {
    if steps == [] {
      assert Carrying(map[], e) == {};
    } else {
      var front := steps[..|steps| - 1];
      EventsAreInsertedOnce(front, e);
      EveryInterleavingIsOrderly(front);
      StepTellsEvents(I.Run(front), Run(front), steps[|steps| - 1], e);
    }
  }

  lemma {:induction false} IncidentHasEarlyReader(steps: seq<Step>)
    ensures I.Run(steps).row.Some? <==> Due(steps, RaiseCreated) >= 1
  {
    if steps != [] {
      var front, last := steps[..|steps| - 1], steps[|steps| - 1];
      IncidentHasEarlyReader(front);
      if Upserts(I.Run(front), last) && I.Run(front).row.None? {
        NoIncrementIsLost(front);
        HeldSinceLastRead(front, last.worker);
        NothingPerformedBefore(front, LastRead(front, last.worker));
      }
    }
  }

  /**
   CREATED under every interleaving, with an early upsert being one whose read came before the first
   upsert: there is an incident exactly when there is an early upsert, and once nothing is owed,
   CREATED was raised exactly once exactly when all early upserts but one have lost it.
   */
  lemma CreatedIsRaisedPerEarlyReader(steps: seq<Step>)
    ensures var d, early := Run(steps), Due(steps, RaiseCreated);
      && d.raised[RaiseCreated] + d.lost[RaiseCreated] + Outstanding(d, RaiseCreated) == early
      && (I.Run(steps).row.Some? <==> early >= 1)
      && (Outstanding(d, RaiseCreated) == 0 ==> (d.raised[RaiseCreated] == 1 <==> early - d.lost[RaiseCreated] == 1))
  {
    TriggersAreAccountedFor(steps, RaiseCreated);
    IncidentHasEarlyReader(steps);
  }

  /** Nobody has anything left to do. */
  ghost predicate Settled(steps: seq<Step>) {
    I.Run(steps).held == map[] && Run(steps).unrecorded == map[] && Run(steps).owed == map[]
  }

  lemma OneMoreStep(steps: seq<Step>, s: Step)
    ensures I.Run(steps + [s]) == I.Next(I.Run(steps), s)
    ensures Run(steps + [s]) == Next(I.Run(steps), Run(steps), s)
  {
    assert (steps + [s])[..|steps|] == steps;
  }

  /** Workers 0 and 1 both have the same note left to deal with, and do. */
  ghost predicate BothOwe(steps: seq<Step>, note: Note) {
    && I.Run(steps).held == map[] && note.trigger.Some?
    && Run(steps).unrecorded == map[0 := note, 1 := note] && Run(steps).owed == map[]
  }

  ghost function BothRecord(steps: seq<Step>): seq<Step> {
    steps + [Record(0)] + [Record(1)]
  }

  ghost function BothReport(steps: seq<Step>): seq<Step> {
    BothRecord(steps) + [Raise(0)] + [Raise(1)]
  }

  lemma RecordedTwice(d: Told, note: Note)
    requires d.unrecorded == map[0 := note, 1 := note] && d.owed == map[] && note.trigger.Some?
    ensures var d' := Recorded(Recorded(d, 0), 1);
      d'.unrecorded == map[] && d'.owed == map[0 := note, 1 := note] && d'.raised == d.raised
  {
    assert d.unrecorded - {0} == map[1 := note];
    assert d.owed[0 := note] == map[0 := note];
  }

  lemma RaisedTwice(d: Told, note: Note, t: Trigger)
    requires d.owed == map[0 := note, 1 := note] && note.trigger == Some(t)
    ensures var d' := RaisedBy(RaisedBy(d, 0), 1);
      d'.unrecorded == d.unrecorded && d'.owed == map[] && d'.raised == d.raised + multiset{t, t}
  {
    assert d.owed - {0} == map[1 := note];
    assert DuesOf(d.owed, 0) == multiset{t} == DuesOf(d.owed - {0}, 1);
  }

  lemma BothReporting(steps: seq<Step>, note: Note)
    requires BothOwe(steps, note)
    ensures Settled(BothReport(steps)) && I.Run(BothReport(steps)) == I.Run(steps)
    ensures Run(BothReport(steps)).raised == Run(steps).raised + multiset{note.trigger.value, note.trigger.value}
  {
    var s1, s2 := steps + [Record(0)], BothRecord(steps);
    OneMoreStep(steps, Record(0));
    OneMoreStep(s1, Record(1));
    RecordedTwice(Run(steps), note);
    OneMoreStep(s2, Raise(0));
    OneMoreStep(s2 + [Raise(0)], Raise(1));
    RaisedTwice(Run(s2), note, note.trigger.value);
  }

  /** Worker 0 creates the incident. */
  ghost function Creating(): seq<Step> {
    [Read(0, Found(10))] + [Upsert(0)]
  }

  lemma CreatingRun()
    ensures I.Run(Creating()) == World(Some(Created(Found(10))), map[], Some(Birth(5, 10)), 0, None)
    ensures Run(Creating()) == NoTold().(unrecorded := map[0 := Note(CREATED, Some(RaiseCreated))])
  {
    OneMoreStep([], Read(0, Found(10)));
    assert [] + [Read(0, Found(10))] == [Read(0, Found(10))];
    assert I.Run([Read(0, Found(10))]) == Start().(held := map[0 := Held(None, Found(10))]);
    assert Run([Read(0, Found(10))]) == NoTold();
    OneMoreStep([Read(0, Found(10))], Upsert(0));
  }

  /** Two workers that both read no incident, and upsert. */
  ghost function BothCreating(): seq<Step> {
    [Read(0, Found(10))] + [Read(1, Found(5))] + [Upsert(0)] + [Upsert(1)]
  }

  lemma BothReadNothing()
    ensures var steps := [Read(0, Found(10))] + [Read(1, Found(5))];
      && I.Run(steps) == Start().(held := map[0 := Held(None, Found(10)), 1 := Held(None, Found(5))])
      && Run(steps) == NoTold()
  {
    var s1: seq<Step> := [Read(0, Found(10))];
    OneMoreStep([], Read(0, Found(10)));
    assert [] + s1 == s1;
    assert I.Run(s1) == Start().(held := map[0 := Held(None, Found(10))]) && Run(s1) == NoTold();
    OneMoreStep(s1, Read(1, Found(5)));
  }

  lemma BothCreatingRun()
    ensures BothOwe(BothCreating(), Note(CREATED, Some(RaiseCreated))) && Run(BothCreating()).raised == multiset{}
    ensures var w := I.Run(BothCreating());
      w.row.Some? && w.row.value.lastSeenAt == 5 && w.birth == Some(Birth(5, 10))
  {
    var s2, note := [Read(0, Found(10))] + [Read(1, Found(5))], Note(CREATED, Some(RaiseCreated));
    BothReadNothing();
    OneMoreStep(s2, Upsert(0));
    var s3 := s2 + [Upsert(0)];
    assert I.Run(s3) == World(Some(Created(Found(10))), map[1 := Held(None, Found(5))], Some(Birth(5, 10)), 0, None);
    assert Run(s3) == NoTold().(unrecorded := map[0 := note]);
    OneMoreStep(s3, Upsert(1));
  }

  /** Two racing workers that both read no incident: both raise CREATED, and the row goes back before its creation. */
  lemma RacingWorkersBothCreate()
    ensures var steps := BothReport(BothCreating());
      && Settled(steps) && Run(steps).raised == multiset{RaiseCreated, RaiseCreated}
      && I.Run(steps).row.Some? && I.Run(steps).birth.Some?
      && I.Run(steps).row.value.lastSeenAt < I.Run(steps).birth.value.timestamp
  {
    BothCreatingRun();
    BothReporting(BothCreating(), Note(CREATED, Some(RaiseCreated)));
  }

  /** A job that ends between its upsert and its event, and is delivered again: an incident nobody was alerted of. */
  lemma CreatedCanBeLost()
    ensures var steps := Creating() + [Abandon(0)] + [Read(0, Found(10))] + [Upsert(0)];
      && Settled(steps) && I.Run(steps).row.Some? && I.Run(steps).row.value.occurrenceCount == 6
      && Run(steps) == NoTold().(lost := multiset{RaiseCreated})
  {
    var lost := NoTold().(lost := multiset{RaiseCreated});
    CreatingRun();
    OneMoreStep(Creating(), Abandon(0));
    var s1 := Creating() + [Abandon(0)];
    assert I.Run(s1) == I.Run(Creating()) && Run(s1) == lost;
    OneMoreStep(s1, Read(0, Found(10)));
    var s2 := s1 + [Read(0, Found(10))];
    assert I.Run(s2).held == map[0 := Held(Some(Snapshot(HIGH, OPEN, 10, 10)), Found(10))] && Run(s2) == lost;
    OneMoreStep(s2, Upsert(0));
  }

  /** One resolve, seen by two workers. */
  ghost function BothReopening(): seq<Step> {
    Creating() + [Operate(RESOLVED, 20)] + [Read(0, Found(30))] + [Read(1, Found(30))] + [Upsert(0)] + [Upsert(1)]
  }

  lemma BothReopeningRun()
    ensures BothOwe(BothReopening(), Note(STATUS_CHANGED, Some(RaiseReopened)))
        && Run(BothReopening()).raised == multiset{}
  {
    var seen := Held(Some(Snapshot(HIGH, RESOLVED, 10, 10)), Found(30));
    var note, lost := Note(STATUS_CHANGED, Some(RaiseReopened)), NoTold().(lost := multiset{RaiseCreated});
    CreatingRun();
    OneMoreStep(Creating(), Operate(RESOLVED, 20));
    var s1 := Creating() + [Operate(RESOLVED, 20)];
    assert SnapshotOf(I.Run(s1).row) == seen.existing && I.Run(s1).held == map[] && Run(s1) == Run(Creating());
    OneMoreStep(s1, Read(0, Found(30)));
    var s2 := s1 + [Read(0, Found(30))];
    assert I.Run(s2) == I.Run(s1).(held := map[0 := seen]) && Run(s2) == lost;
    OneMoreStep(s2, Read(1, Found(30)));
    var s3 := s2 + [Read(1, Found(30))];
    assert I.Run(s3).held == map[0 := seen, 1 := seen] && Run(s3) == lost;
    OneMoreStep(s3, Upsert(0));
    var s4 := s3 + [Upsert(0)];
    assert I.Run(s4).held == map[1 := seen] && Run(s4) == lost.(unrecorded := map[0 := note]);
    OneMoreStep(s4, Upsert(1));
  }

  /** REOPENED is then raised twice. */
  lemma ReopenedCanBeRaisedTwice()
    ensures var steps := BothReport(BothReopening());
      Settled(steps) && Run(steps).raised == multiset{RaiseReopened, RaiseReopened}
  {
    BothReopeningRun();
    BothReporting(BothReopening(), Note(STATUS_CHANGED, Some(RaiseReopened)));
  }

  /** An operator resolves between a read and its upsert: the detection is counted, the incident stays resolved. */
  lemma ReopenedCanBeMissed()
    ensures var steps := Creating() + [Read(0, Found(30))] + [Operate(RESOLVED, 20)] + [Upsert(0)];
      && Settled(steps) && Run(steps) == NoTold().(lost := multiset{RaiseCreated})
      && I.Run(steps).row.Some? && I.Run(steps).row.value.status == RESOLVED
      && I.Run(steps).row.value.occurrenceCount == 6
  {
    var lost := NoTold().(lost := multiset{RaiseCreated});
    CreatingRun();
    OneMoreStep(Creating(), Read(0, Found(30)));
    var s1 := Creating() + [Read(0, Found(30))];
    var held := map[0 := Held(Some(Snapshot(HIGH, OPEN, 10, 10)), Found(30))];
    assert I.Run(s1) == I.Run(Creating()).(held := held) && Run(s1) == lost;
    OneMoreStep(s1, Operate(RESOLVED, 20));
    var s2 := s1 + [Operate(RESOLVED, 20)];
    assert I.Run(s2).held == held && Run(s2) == lost;
    OneMoreStep(s2, Upsert(0));
  }

  /**
   A worker that saw the incident resolved writes after an operator reopened and acknowledged it:
   it is OPEN again.
   */
  lemma AcknowledgedCanBeOverwritten()
    ensures var steps := Creating() + [Operate(RESOLVED, 20)] + [Read(0, Found(30))] + [Operate(ACKNOWLEDGED, 40)];
      && I.Run(steps).row.Some? && I.Run(steps).row.value.status == ACKNOWLEDGED
      && I.Run(steps + [Upsert(0)]).row.Some? && I.Run(steps + [Upsert(0)]).row.value.status == OPEN
  {
    CreatingRun();
    OneMoreStep(Creating(), Operate(RESOLVED, 20));
    var s1 := Creating() + [Operate(RESOLVED, 20)];
    assert SnapshotOf(I.Run(s1).row) == Some(Snapshot(HIGH, RESOLVED, 10, 10)) && I.Run(s1).held == map[];
    OneMoreStep(s1, Read(0, Found(30)));
    var s2 := s1 + [Read(0, Found(30))];
    assert I.Run(s2).held == map[0 := Held(Some(Snapshot(HIGH, RESOLVED, 10, 10)), Found(30))];
    OneMoreStep(s2, Operate(ACKNOWLEDGED, 40));
    OneMoreStep(s2 + [Operate(ACKNOWLEDGED, 40)], Upsert(0));
  }
}
