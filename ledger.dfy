/**
 * Defect ledger and engineer metrics: recording a reported defect (one document
 * per product and defect id, with the list of users who found it) together
 * with the reporter's per-product severity counters, and recording an
 * engineer's review size and time with the derived rate.
 */
module Ledger {
  import opened Wrappers
  import opened Documents
  import opened DocumentStore

  /** The yield `updateEngineerInfo` stores. */
  const EstimatedYield: int := 85

  /** The caller's `defectData`: the defect's own fields, without the finders. */
  datatype Report = Report(projectId: Id, productId: Id, defectId: int, userId: Id, severity: string, details: string)

  /** The caller's `engineerData`: whose counters to update. */
  datatype EngineerKey = EngineerKey(projectId: Id, productId: Id, userId: Id)

  // ---------------------------------------------------------------------------
  // Defects

  /** The defects with the report's product and defect id. */
  function SameDefect(ds: map<Id, Defect>, productId: Id, defectId: int): set<Id> {
    set k | k in ds && ds[k].productId == productId && ds[k].defectId == defectId
  }

  /** The defect a first report creates: its fields, found by the reporter alone. */
  function NewDefect(d: Report): Defect {
    Defect(d.projectId, d.productId, d.defectId, d.userId, d.severity, d.details, [d.userId])
  }

  /** The reporter appended to the finders, unless already there. */
  function WithFinder(finders: seq<Id>, u: Id): seq<Id> {
    if u in finders then finders else finders + [u]
  }

  /**
   * The defects after the defect step of `addDefectTransaction`: if a defect
   * with the same product and defect id exists, its first document gets the
   * reporter as a finder; otherwise a new defect is created under `newId`.
   */
  function Reported(ds: map<Id, Defect>, d: Report, newId: Id): map<Id, Defect> {
    var same := SameDefect(ds, d.productId, d.defectId);
    if same != {} then
      var k := Least(same);
      ds[k := ds[k].(foundByUsers := WithFinder(ds[k].foundByUsers, d.userId))]
    else
      ds[newId := NewDefect(d)]
  }

  /** The id of the defect document a report lands in. */
  function ReportedId(ds: map<Id, Defect>, d: Report, newId: Id): Id {
    var same := SameDefect(ds, d.productId, d.defectId);
    if same != {} then Least(same) else newId
  }

  // ---------------------------------------------------------------------------
  // Engineer counters

  function RecordsOf(es: map<Id, Engineer>, key: EngineerKey): set<Id> {
    set k | k in es && es[k].projectId == key.projectId && es[k].productId == key.productId && es[k].userId == key.userId
  }

  /** 1 when the severity is `s`, else 0: the increment of the counter for `s`. */
  function Count(severity: string, s: string): int {
    if severity == s then 1 else 0
  }

  /** The record a first report creates: counters from this report, metrics zero. */
  function NewEngineer(key: EngineerKey, severity: string): Engineer {
    Engineer(key.projectId, key.productId, key.userId, Count(severity, Major), Count(severity, Minor), 0, 0, 0, 0)
  }

  /**
   * The engineer records after the counter step: the first matching record's
   * counters raised by this report's severity, or a new record under `newId`.
   */
  function Tallied(es: map<Id, Engineer>, key: EngineerKey, severity: string, newId: Id): map<Id, Engineer> {
    var recs := RecordsOf(es, key);
    if recs != {} then
      var k := Least(recs);
      es[k := es[k].(major := es[k].major + Count(severity, Major), minor := es[k].minor + Count(severity, Minor))]
    else
      es[newId := NewEngineer(key, severity)]
  }

  /**
   * `addDefectTransaction`: records the defect, then the reporter's counters.
   * A rejected write makes the call fail; a defect written before a rejected
   * counter write stays (`recorded`). Returns the id of the defect document.
   */
  method AddDefectTransaction(st: Store, d: Report, key: EngineerKey) returns (r: Result<Id, Error>, recorded: bool)
    requires st.Valid()
    modifies st`defects, st`engineers, st`nextId
    ensures st.Valid()
    ensures var defects := Reported(old(st.defects), d, old(st.nextId));
      var newId := old(st.nextId) + if SameDefect(old(st.defects), d.productId, d.defectId) == {} then 1 else 0;
      && st.defects == (if recorded then defects else old(st.defects))
      && st.nextId == newId + (if recorded && RecordsOf(old(st.engineers), key) == {} then 1 else 0)
      && (r.Success? ==>
            && recorded
            && r.value == ReportedId(old(st.defects), d, old(st.nextId))
            && st.engineers == Tallied(old(st.engineers), key, d.severity, newId))
      && (r.Failure? ==> r.error == Remote && st.engineers == old(st.engineers))
  {
    r := RecordDefect(st, d);
    recorded := r.Success?;
    if r.Failure? {
      return;
    }
    var ok := TallyReport(st, key, d.severity);
    if !ok {
      r := Failure(Remote);
    }
  }

  /** The defect step: the reporter added to the existing defect's finders, or a new defect. */
  method RecordDefect(st: Store, d: Report) returns (r: Result<Id, Error>)
    requires st.Valid()
    modifies st`defects, st`nextId
    ensures st.Valid()
    ensures st.nextId == old(st.nextId) + if SameDefect(old(st.defects), d.productId, d.defectId) == {} then 1 else 0
    ensures r.Success? ==>
      r.value == ReportedId(old(st.defects), d, old(st.nextId)) && st.defects == Reported(old(st.defects), d, old(st.nextId))
    ensures r.Failure? ==> r.error == Remote && st.defects == old(st.defects)
  {
    var same := SameDefect(st.defects, d.productId, d.defectId);
    if same != {} {
      var id := Least(same);
      var doc := st.defects[id];
      if d.userId !in doc.foundByUsers {
        var ok := Attempt();
        if !ok {
          return Failure(Remote);
        }
        st.defects := st.defects[id := doc.(foundByUsers := doc.foundByUsers + [d.userId])];
      }
      r := Success(id);
    } else {
      var id := st.nextId;
      st.nextId := st.nextId + 1;
      var ok := Attempt();
      if !ok {
        return Failure(Remote);
      }
      st.defects := st.defects[id := NewDefect(d)];
      r := Success(id);
    }
  }

  /** The counter step: this report's severity counted in the reporter's record. */
  method TallyReport(st: Store, key: EngineerKey, severity: string) returns (ok: bool)
    requires st.Valid()
    modifies st`engineers, st`nextId
    ensures st.Valid()
    ensures st.nextId == old(st.nextId) + if RecordsOf(old(st.engineers), key) == {} then 1 else 0
    ensures st.engineers == if ok then Tallied(old(st.engineers), key, severity, old(st.nextId)) else old(st.engineers)
  {
    var recs := RecordsOf(st.engineers, key);
    if recs != {} {
      var k := Least(recs);
      var rec := st.engineers[k];
      ok := Attempt();
      if ok {
        st.engineers := st.engineers[k := rec.(major := rec.major + Count(severity, Major),
                                               minor := rec.minor + Count(severity, Minor))];
      }
    } else {
      var k := st.nextId;
      st.nextId := st.nextId + 1;
      ok := Attempt();
      if ok {
        st.engineers := st.engineers[k := NewEngineer(key, severity)];
      }
    }
  }

  // ---------------------------------------------------------------------------
  // What a report does to the ledger

  /**
   * A report keeps defects unique per (product, defect id), and afterwards
   * exactly one document, the one `ReportedId` names, holds that defect.
   */
  lemma ReportKeepsDefectsUnique(ds: map<Id, Defect>, d: Report, newId: Id)
    requires UniqueDefects(ds) && newId !in ds
    ensures UniqueDefects(Reported(ds, d, newId))
    ensures SameDefect(Reported(ds, d, newId), d.productId, d.defectId) == {ReportedId(ds, d, newId)}
  {
    var same := SameDefect(ds, d.productId, d.defectId);
    var after := Reported(ds, d, newId);
    var id := ReportedId(ds, d, newId);
    if same != {} {
      forall j | j in same ensures j == id { }
    } else {
      forall j | j in ds ensures !(ds[j].productId == d.productId && ds[j].defectId == d.defectId) {
        assert j !in same;
      }
    }
  }

  /**
   * The reporter is among the defect's finders afterwards; the finders gain
   * the reporter only if absent, no other field of the defect changes, and no
   * other defect changes.
   */
  lemma ReportRecordsFinder(ds: map<Id, Defect>, d: Report, newId: Id)
    requires newId !in ds
    ensures var after := Reported(ds, d, newId);
      var id := ReportedId(ds, d, newId);
      && id in after && d.userId in after[id].foundByUsers
      && (id in ds ==>
            && after[id].foundByUsers == WithFinder(ds[id].foundByUsers, d.userId)
            && after[id].(foundByUsers := ds[id].foundByUsers) == ds[id])
      && (id !in ds ==> id == newId && after[id] == NewDefect(d))
      && after.Keys == ds.Keys + {id}
      && (forall k :: k in ds && k != id ==> after[k] == ds[k])
  {
  }

  /** Finder lists stay free of repeats. */
  lemma ReportKeepsFindersDistinct(ds: map<Id, Defect>, d: Report, newId: Id)
    requires DistinctFinders(ds) && newId !in ds
    ensures DistinctFinders(Reported(ds, d, newId))
  {
    var same := SameDefect(ds, d.productId, d.defectId);
    if same != {} {
      var k := Least(same);
      var fs := ds[k].foundByUsers;
      if d.userId !in fs {
        var fs' := fs + [d.userId];
        forall i, j | 0 <= i < j < |fs'| ensures fs'[i] != fs'[j] {
          if j == |fs| { assert fs'[i] == fs[i]; }
        }
      }
    }
  }

  /** A repeated report by the same user leaves the defects as they are. */
  lemma ReportIsIdempotent(ds: map<Id, Defect>, d: Report, newId: Id, laterId: Id)
    requires newId !in ds
    ensures Reported(Reported(ds, d, newId), d, laterId) == Reported(ds, d, newId)
  {
    var after := Reported(ds, d, newId);
    var id := ReportedId(ds, d, newId);
    var same := SameDefect(ds, d.productId, d.defectId);
    ReportRecordsFinder(ds, d, newId);
    assert SameDefect(after, d.productId, d.defectId) == if same != {} then same else {newId};
  }

  /**
   * The counter step: the reporter's record (existing or new) counts this
   * report under its severity, 'Major' 'Minor', or neither, and no other
   * record changes.
   */
  lemma TallyCountsSeverity(es: map<Id, Engineer>, key: EngineerKey, severity: string, newId: Id)
    requires newId !in es
    ensures var after := Tallied(es, key, severity, newId);
      var recs := RecordsOf(es, key);
      var k := if recs != {} then Least(recs) else newId;
      && k in after
      && after[k].major == (if recs != {} then es[k].major else 0) + (if severity == Major then 1 else 0)
      && after[k].minor == (if recs != {} then es[k].minor else 0) + (if severity == Minor then 1 else 0)
      && (recs != {} ==> after[k].(major := es[k].major, minor := es[k].minor) == es[k])
      && (recs == {} ==> after[k].size == 0 && after[k].time == 0 && after[k].rate == 0 && after[k].estYield == 0)
      && (forall j :: j in es && j != k ==> after[j] == es[j])
  {
  }

  /**
   * The counters count reports, not distinct defects: reporting the same
   * defect twice counts it twice (the defect's finders do not change the
   * second time).
   */
  lemma RepeatedReportCountsTwice(es: map<Id, Engineer>, key: EngineerKey, severity: string, id1: Id, id2: Id)
    requires UniqueEngineers(es) && id1 !in es && id2 != id1 && id2 !in es
    requires severity == Major
    ensures var once := Tallied(es, key, severity, id1);
      var twice := Tallied(once, key, severity, id2);
      var k := if RecordsOf(es, key) != {} then Least(RecordsOf(es, key)) else id1;
      k in twice && twice[k].major == (if RecordsOf(es, key) != {} then es[k].major else 0) + 2
  {
    var recs := RecordsOf(es, key);
    var once := Tallied(es, key, severity, id1);
    var k := if recs != {} then Least(recs) else id1;
    TallyCountsSeverity(es, key, severity, id1);
    assert k in RecordsOf(once, key);
    forall j | j in RecordsOf(once, key) ensures j == k {
      assert j == k || j in recs;
    }
    assert RecordsOf(once, key) == {k};
  }

  /** The counter step keeps one record per (project, product, user). */
  lemma TallyKeepsEngineersUnique(es: map<Id, Engineer>, key: EngineerKey, severity: string, newId: Id)
    requires UniqueEngineers(es) && newId !in es
    ensures UniqueEngineers(Tallied(es, key, severity, newId))
  {
    var recs := RecordsOf(es, key);
    if recs == {} {
      forall j | j in es
        ensures !(es[j].projectId == key.projectId && es[j].productId == key.productId && es[j].userId == key.userId)
      {
        assert j !in recs;
      }
    }
  }

  // ---------------------------------------------------------------------------
  // updateEngineerInfo

  /**
   * `Math.round(size / (time / 60))` when `time` is positive, else 0: the size
   * per hour, rounded half up.
   */
  function Rate(size: int, time: int): (r: int)
    ensures time > 0 ==> time * (2 * r - 1) <= 120 * size < time * (2 * r + 1)
    ensures time <= 0 ==> r == 0
  {
    if time > 0 then (120 * size + time) / (2 * time) else 0
  }

  /**
   * `updateEngineerInfo`: fails with no write when the user has no record for
   * the product; otherwise overwrites the first record's size and time and
   * sets the derived rate and the fixed yield.
   */
  method UpdateEngineerInfo(st: Store, key: EngineerKey, size: int, time: int) returns (r: Outcome<Error>)
    requires st.Valid()
    modifies st`engineers
    ensures st.Valid()
    ensures r == Fail(NotFound) <==> RecordsOf(old(st.engineers), key) == {}
    ensures r.Fail? ==> st.engineers == old(st.engineers)
    ensures r.Pass? ==>
      var k := Least(RecordsOf(old(st.engineers), key));
      && RecordsOf(old(st.engineers), key) != {}
      && st.engineers == old(st.engineers)[k := old(st.engineers)[k].(size := size, time := time,
                                                                      rate := Rate(size, time), estYield := EstimatedYield)]
    ensures r.Pass? || r == Fail(NotFound) || r == Fail(Remote)
  {
    var recs := RecordsOf(st.engineers, key);
    if recs == {} {
      return Fail(NotFound);
    }
    var k := Least(recs);
    var ok := Attempt();
    if !ok {
      return Fail(Remote);
    }
    st.engineers := st.engineers[k := st.engineers[k].(size := size, time := time,
                                                       rate := Rate(size, time), estYield := EstimatedYield)];
    r := Pass;
  }

  /** The metrics update keeps the counters and keeps one record per (project, product, user). */
  lemma MetricsKeepCounters(es: map<Id, Engineer>, k: Id, size: int, time: int)
    requires k in es && UniqueEngineers(es)
    ensures var after := es[k := es[k].(size := size, time := time, rate := Rate(size, time), estYield := EstimatedYield)];
      && UniqueEngineers(after)
      && after[k].major == es[k].major && after[k].minor == es[k].minor
  {
  }
}
