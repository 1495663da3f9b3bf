/** The in-memory record store: one map by decision, one by run, both replaced copy-on-write. */
module JournalStore {
  import opened Wrappers
  import opened JournalRecords

  datatype StoreError = CorruptedChain | DuplicateRecord | NotFound

  type ByDecision = map<string, JournalRecord>
  type ByRun = map<string, seq<JournalRecord>>

  function RunOf(runs: ByRun, runID: string): seq<JournalRecord> {
    if runID in runs then runs[runID] else []
  }

  /** What a record must link to if it is to extend a run. */
  function ExpectedPrev(records: seq<JournalRecord>): string {
    if records == [] then GENESIS else records[|records| - 1].recordHash
  }

  /** Every record that can be found by run can be found by decision: what readers rely on at all times. */
  ghost predicate RunsAreFound(byID: ByDecision, runs: ByRun) {
    forall run, i :: run in runs && 0 <= i < |runs[run]| ==>
      runs[run][i].decisionID in byID && byID[runs[run][i].decisionID] == runs[run][i]
  }

  /** Every record that can be found by decision is in its run. */
  ghost predicate DecisionsAreListed(byID: ByDecision, runs: ByRun) {
    forall id :: id in byID ==> byID[id].decisionID == id && byID[id] in RunOf(runs, byID[id].runID)
  }

  ghost predicate RunOk(c: Codec, run: string, records: seq<JournalRecord>) {
    && records != []
    && Chain(c, records)
    && (forall i :: 0 <= i < |records| ==> records[i].runID == run)
    && forall i, j :: 0 <= i < j < |records| ==> records[i].decisionID != records[j].decisionID
  }

  ghost predicate RunsOk(c: Codec, runs: ByRun) {
    forall run :: run in runs ==> RunOk(c, run, runs[run])
  }

  /** Between appends the two maps hold the same records, every run a verified chain of its own. */
  ghost predicate Consistent(c: Codec, byID: ByDecision, runs: ByRun) {
    RunsAreFound(byID, runs) && DecisionsAreListed(byID, runs) && RunsOk(c, runs)
  }

  lemma AppendKeepsRun(c: Codec, run: string, records: seq<JournalRecord>, r: JournalRecord)
    requires records == [] || RunOk(c, run, records)
    requires r.runID == run && r.VerifyIntegrity(c) && r.prevRecordHash == ExpectedPrev(records)
    requires forall i :: 0 <= i < |records| ==> records[i].decisionID != r.decisionID
    ensures RunOk(c, run, records + [r])
  {
    var extended := records + [r];
    forall i | 0 <= i < |extended|
      ensures LinkOk(c, extended, i)
    {
      assert i < |records| ==> LinkOk(c, records, i);
    }
  }

  lemma ReadersBetweenStores(c: Codec, byID: ByDecision, runs: ByRun, r: JournalRecord)
    requires Consistent(c, byID, runs) && r.decisionID !in byID
    ensures RunsAreFound(byID[r.decisionID := r], runs)
  {
  }

  lemma AppendKeepsMaps(c: Codec, byID: ByDecision, runs: ByRun, r: JournalRecord)
    requires Consistent(c, byID, runs) && r.decisionID !in byID
    ensures RunsAreFound(byID[r.decisionID := r], runs[r.runID := RunOf(runs, r.runID) + [r]])
    ensures DecisionsAreListed(byID[r.decisionID := r], runs[r.runID := RunOf(runs, r.runID) + [r]])
  {
    var byID', before := byID[r.decisionID := r], RunOf(runs, r.runID);
    var runs': ByRun := runs[r.runID := before + [r]];
    forall run: string, i: int | run in runs' && 0 <= i < |runs'[run]|
      ensures runs'[run][i].decisionID in byID' && byID'[runs'[run][i].decisionID] == runs'[run][i]
    {
      if run == r.runID && i == |before| {
        assert runs'[run][i] == r;
      } else {
        assert run in runs && runs'[run][i] == runs[run][i];
      }
    }
    forall id | id in byID'
      ensures byID'[id].decisionID == id && byID'[id] in RunOf(runs', byID'[id].runID)
    {
      if id == r.decisionID {
        assert runs'[r.runID][|before|] == r;
      } else {
        assert byID[id] in RunOf(runs, byID[id].runID);
      }
    }
  }

  lemma AppendKeepsRuns(c: Codec, byID: ByDecision, runs: ByRun, r: JournalRecord)
    requires Consistent(c, byID, runs) && r.decisionID !in byID
    requires r.VerifyIntegrity(c) && r.prevRecordHash == ExpectedPrev(RunOf(runs, r.runID))
    ensures RunsOk(c, runs[r.runID := RunOf(runs, r.runID) + [r]])
  {
    forall i | 0 <= i < |RunOf(runs, r.runID)|
      ensures RunOf(runs, r.runID)[i].decisionID != r.decisionID
    {
      assert runs[r.runID][i].decisionID in byID;
    }
    AppendKeepsRun(c, r.runID, RunOf(runs, r.runID), r);
  }

  /** text names the first record at which the chain breaks. */
  ghost predicate FirstBroken(c: Codec, records: seq<JournalRecord>, text: string) {
    exists i :: 0 <= i < |records| && BrokenAt(c, records, i) && records[i].decisionID == text
  }

  ghost predicate BrokenAt(c: Codec, records: seq<JournalRecord>, i: nat)
    requires i < |records|
  {
    !LinkOk(c, records, i) && forall k :: 0 <= k < i ==> LinkOk(c, records, k)
  }

  method FirstBreak(codec: Codec, records: seq<JournalRecord>) returns (broken: Option<nat>)
    ensures broken.None? <==> Chain(codec, records)
    ensures broken.Some? ==> broken.value < |records| && BrokenAt(codec, records, broken.value)
  {
    var i := 0;
    while i < |records|
      invariant 0 <= i <= |records|
      invariant forall k :: 0 <= k < i ==> LinkOk(codec, records, k)
    {
      if !records[i].VerifyIntegrity(codec) {
        assert BrokenAt(codec, records, i);
        return Some(i);
      }
      if i == 0 {
        if records[i].prevRecordHash != GENESIS {
          assert BrokenAt(codec, records, i);
          return Some(i);
        }
      } else if records[i].prevRecordHash != records[i - 1].recordHash {
        assert BrokenAt(codec, records, i);
        return Some(i);
      }
      i := i + 1;
    }
    return None;
  }

  class MemoryStore {
    const codec: Codec
    var recordsMap: ByDecision
    var runMap: ByRun

    ghost predicate Valid()
      reads this
    {
      Consistent(codec, recordsMap, runMap)
    }

    constructor (codec: Codec)
      ensures Valid() && this.codec == codec && recordsMap == map[] && runMap == map[]
    {
      this.codec := codec;
      recordsMap := map[];
      runMap := map[];
    }

    /** The two replacements. A reader between them already finds the record by decision and does not yet list it. */
    method Commit(r: JournalRecord, records: seq<JournalRecord>) returns (ghost between: (ByDecision, ByRun))
      requires Valid() && r.VerifyIntegrity(codec) && r.decisionID !in recordsMap
      requires records == RunOf(runMap, r.runID) && r.prevRecordHash == ExpectedPrev(records)
      modifies this
      ensures Valid() && RunsAreFound(between.0, between.1) && between == (recordsMap, old(runMap))
      ensures recordsMap == old(recordsMap)[r.decisionID := r]
      ensures runMap == old(runMap)[r.runID := records + [r]]
    {
      ReadersBetweenStores(codec, recordsMap, runMap, r);
      AppendKeepsMaps(codec, recordsMap, runMap, r);
      AppendKeepsRuns(codec, recordsMap, runMap, r);
      recordsMap := recordsMap[r.decisionID := r];
      between := (recordsMap, runMap);
      runMap := runMap[r.runID := records + [r]];
    }

    /** Commits an intact record that extends its run; anything else leaves the store as it was. */
    method Append(r: JournalRecord) returns (error: Option<StoreError>, ghost between: (ByDecision, ByRun))
      requires Valid()
      modifies this
      ensures Valid()
      ensures error.None? <==>
        && r.VerifyIntegrity(codec) && r.decisionID !in old(recordsMap)
        && r.prevRecordHash == ExpectedPrev(RunOf(old(runMap), r.runID))
      ensures error == Some(DuplicateRecord) <==> r.VerifyIntegrity(codec) && r.decisionID in old(recordsMap)
      ensures error != Some(NotFound)
      ensures recordsMap == if error.None? then old(recordsMap)[r.decisionID := r] else old(recordsMap)
      ensures runMap ==
        if error.None? then old(runMap)[r.runID := RunOf(old(runMap), r.runID) + [r]] else old(runMap)
      ensures var before := if r.runID in old(runMap) then old(runMap)[r.runID] else [];
        && (error.None? <==>
              && r.recordHash != "" && r.recordHash == codec.digest(r.Payload(codec))
              && r.decisionID !in old(recordsMap)
              && r.prevRecordHash == if before == [] then GENESIS else before[|before| - 1].recordHash)
        && (error.None? ==> runMap == old(runMap)[r.runID := before + [r]])
      ensures error.None? ==> between == (recordsMap, old(runMap))
      ensures RunsAreFound(between.0, between.1)
    {
      between := (recordsMap, runMap);
      if !r.VerifyIntegrity(codec) {
        return Some(CorruptedChain), between;
      }
      if r.decisionID in recordsMap {
        return Some(DuplicateRecord), between;
      }
      var records := RunOf(runMap, r.runID);
      if |records| == 0 {
        if r.prevRecordHash != GENESIS {
          return Some(CorruptedChain), between;
        }
      } else {
        if r.prevRecordHash != records[|records| - 1].recordHash {
          return Some(CorruptedChain), between;
        }
      }
      between := Commit(r, records);
      return None, between;
    }

    method Get(decisionID: string) returns (r: Result<JournalRecord, StoreError>)
      requires Valid()
      ensures r.Ok? <==> decisionID in recordsMap
      ensures r.Ok? ==> r.value.decisionID == decisionID && r.value in RunOf(runMap, r.value.runID)
      ensures r.Err? ==> r.error == NotFound
    {
      if decisionID !in recordsMap {
        return Err(NotFound);
      }
      return Ok(recordsMap[decisionID]);
    }

    method ListByRun(runID: string) returns (records: seq<JournalRecord>)
      ensures records == RunOf(runMap, runID)
    {
      return if runID in runMap then runMap[runID] else [];
    }

    method LastRecord(runID: string) returns (r: Option<JournalRecord>)
      requires Valid()
      ensures r.None? <==> runID !in runMap
      ensures r.Some? ==>
        runMap[runID][|runMap[runID]| - 1] == r.value && ExpectedPrev(runMap[runID]) == r.value.recordHash
    {
      if runID !in runMap || |runMap[runID]| == 0 {
        return None;
      }
      return Some(runMap[runID][|runMap[runID]| - 1]);
    }

    /** The records a verification request is about: a run's, or else the run of the decision with that name. */
    ghost function Meant(runID: string): seq<JournalRecord>
      reads this
    {
      if RunOf(runMap, runID) != [] then RunOf(runMap, runID)
      else if runID in recordsMap && recordsMap[runID].runID != "" then RunOf(runMap, recordsMap[runID].runID)
      else []
    }

    /** Checks a run link by link: verdict, and the last hash or the first offender. In a store built by appends
        every run verifies; a name nobody knows counts as an empty run. */
    method VerifyRunChain(runID: string) returns (ok: bool, text: string, error: Option<StoreError>)
      ensures ok <==> Chain(codec, Meant(runID))
      ensures ok <==> error == None
      ensures ok ==> text == if Meant(runID) == [] then "empty_run" else ExpectedPrev(Meant(runID))
      ensures !ok ==> FirstBroken(codec, Meant(runID), text)
      ensures Valid() ==> ok
    {
      var records := ListByRun(runID);
      if |records| == 0 {
        if runID in recordsMap && recordsMap[runID].runID != "" {
          records := ListByRun(recordsMap[runID].runID);
        }
      }
      assert Valid() ==> Chain(codec, records);
      if |records| == 0 {
        return true, "empty_run", None;
      }
      var broken := FirstBreak(codec, records);
      if broken.Some? {
        return false, records[broken.value].decisionID, Some(CorruptedChain);
      }
      return true, records[|records| - 1].recordHash, None;
    }
  }

  /** In a consistent store a record is found by decision exactly when its run lists it. */
  lemma SameRecords(c: Codec, byID: ByDecision, runs: ByRun, r: JournalRecord)
    requires Consistent(c, byID, runs)
    ensures (r.decisionID in byID && byID[r.decisionID] == r) <==> r in RunOf(runs, r.runID)
  {
    if r in RunOf(runs, r.runID) {
      var i :| 0 <= i < |RunOf(runs, r.runID)| && RunOf(runs, r.runID)[i] == r;
    }
  }

  /** A run of readable records is determined by its last hash, against any run of any store, up to unhashed fields. */
  lemma SameEndSameHistory(c: Codec, runs: ByRun, runs': ByRun, run: string, run': string)
    requires Sound(c) && RunsOk(c, runs) && RunsOk(c, runs') && run in runs && run' in runs'
    requires ExpectedPrev(runs[run]) == ExpectedPrev(runs'[run'])
    requires forall i :: 0 <= i < |runs[run]| ==> Readable(c, runs[run][i])
    ensures run == run' && |runs[run]| == |runs'[run']|
    ensures forall i :: 0 <= i < |runs[run]| ==> SameFields(c, runs[run][i], runs'[run'][i])
  {
    FinalHashDeterminesChain(c, runs[run], runs'[run']);
    assert SameFields(c, runs[run][0], runs'[run'][0]);
  }
}
