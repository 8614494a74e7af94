/**
 * The command-line import: reads the alumni records of the JSON data file
 * and upserts them one by one, printing a line per record and a final
 * report. It builds each row exactly as the ingestion library does (its
 * `parseName` and `parseYear` are the library's, character for character),
 * so the model reuses `AlumniSync.ParseName`, `AlumniSync.ParseYear` and
 * `AlumniSync.ToProfileWrite`.
 */
module ImportAlumni {
  import opened JsNumbers
  import opened AlumniStore
  import opened AlumniSync

  /** What reading and parsing the data file gives. */
  datatype DataFile = Missing | Unparsable | Records(items: seq<AlumniData>)

  datatype ImportReport =
    | ConfigMissing
    | FileMissing
    | BadJson
    | Crashed(message: string)
    | Report(total: nat, successCount: nat, errorCount: nat, lines: seq<string>)

  /** The console line for record `i` (zero-based) of `n` whose upsert returned. */
  function ProgressLine(i: nat, n: nat, item: AlumniData, reply: UpsertReply): (line: string)
    requires !reply.Threw?
    ensures reply.Rejected? ==> |line| > 8 && line[..8] == "[ERROR] " && line[8] == '['
    ensures reply.Stored? ==> |line| > 10 && line[..10] == "[SUCCESS] " && line[10] == '['
    ensures reply.Rejected? ==> |line| >= |reply.message| && line[|line| - |reply.message|..] == reply.message
  {
    var counter := "[" + IntToString(i + 1) + "/" + IntToString(n) + "] ";
    if reply.Rejected? then "[ERROR] " + counter + "Échec pour " + item.fullName + ": " + reply.message
    else "[SUCCESS] " + counter + item.fullName + " synchronisé."
  }

  /** The first `i` console lines are those of the first `i` records. */
  predicate LinesUpTo(lines: seq<string>, data: seq<AlumniData>, replies: seq<UpsertReply>, i: nat)
    requires i <= |data| == |replies|
    requires forall j :: 0 <= j < i ==> !replies[j].Threw?
  {
    |lines| == i && forall j :: 0 <= j < i ==> lines[j] == ProgressLine(j, |data|, data[j], replies[j])
  }

  lemma LinesStep(lines: seq<string>, data: seq<AlumniData>, replies: seq<UpsertReply>, i: nat, line: string)
    requires i < |data| == |replies|
    requires forall j :: 0 <= j <= i ==> !replies[j].Threw?
    requires LinesUpTo(lines, data, replies, i)
    requires line == ProgressLine(i, |data|, data[i], replies[i])
    ensures LinesUpTo(lines + [line], data, replies, i + 1)
  {
    var extended := lines + [line];
    forall j | 0 <= j < i + 1
      ensures extended[j] == ProgressLine(j, |data|, data[j], replies[j])
    {
      if j < i {
        assert extended[j] == lines[j];
      }
    }
  }

  /**
   * `importAlumni`: without the database settings the client cannot be
   * created and the script stops; a missing or unparsable data file ends it
   * before any write; otherwise every record is upserted in turn, an error
   * reply being printed and counted while the loop goes on. An upsert that
   * throws ends the script through its top-level handler.
   */
  method ImportAlumni(configured: bool, file: DataFile, store: Store, replies: seq<UpsertReply>)
      returns (report: ImportReport, store': Store)
    requires file.Records? ==> |replies| == |file.items|
    ensures !configured ==> report == ConfigMissing && store' == store
    ensures configured && file.Missing? ==> report == FileMissing && store' == store
    ensures configured && file.Unparsable? ==> report == BadJson && store' == store
    ensures configured && file.Records? ==>
      var data := file.items;
      var n := Reached(replies);
      store' == ApplyProfiles(store, Writes(data[..n], replies[..n])) &&
      (report.Crashed? <==> n < |data|) &&
      (report.Crashed? ==> report.message == replies[n].message) &&
      (report.Report? ==>
        report.total == |data| && report.successCount + report.errorCount == |data| &&
        report.errorCount == Failures(replies) && LinesUpTo(report.lines, data, replies, |data|))
  {
    store' := store;
    if !configured {
      return ConfigMissing, store';
    }
    if file.Missing? {
      return FileMissing, store';
    }
    if file.Unparsable? {
      return BadJson, store';
    }
    var data := file.items;
    var i, successCount, errorCount, lines;
    i, store', successCount, errorCount, lines := ImportLoop(store, data, replies);
    ReachedAt(replies, i);
    if i < |data| {
      report := Crashed(replies[i].message);
    } else {
      assert data[..i] == data && replies[..i] == replies;
      report := Report(|data|, successCount, errorCount, lines);
    }
  }

  /** The script's loop over the records: it stops at the end of the file or at the first upsert that throws. */
  method ImportLoop(store: Store, data: seq<AlumniData>, replies: seq<UpsertReply>)
      returns (i: nat, store': Store, successCount: nat, errorCount: nat, lines: seq<string>)
    requires |replies| == |data|
    ensures i <= |data| && (i == |data| || replies[i].Threw?)
    ensures forall j :: 0 <= j < i ==> !replies[j].Threw?
    ensures store' == ApplyProfiles(store, Writes(data[..i], replies[..i]))
    ensures errorCount == Failures(replies[..i]) && successCount + errorCount == i
    ensures LinesUpTo(lines, data, replies, i)
  {
    successCount, errorCount := 0, 0;
    lines := [];
    store' := store;
    i := 0;
    while i < |data| && !replies[i].Threw?
      invariant SyncedUpTo(store, data, replies, i, store', successCount, errorCount)
      invariant LinesUpTo(lines, data, replies, i)
    {
      var next, successCount', errorCount', line := ImportRecord(store', successCount, errorCount, i, |data|, data[i], replies[i]);
      SyncedStep(store, data, replies, i, store', successCount, errorCount, next, successCount', errorCount');
      LinesStep(lines, data, replies, i, line);
      store', successCount, errorCount := next, successCount', errorCount';
      lines := lines + [line];
      i := i + 1;
    }
  }

  /**
   * Record `i` of `n` whose upsert returned: a rejection is printed with its
   * message and counted as an error, a stored row is upserted and counted as
   * a success.
   */
  method ImportRecord(current: Store, successCount: nat, errorCount: nat, i: nat, n: nat, item: AlumniData, reply: UpsertReply)
      returns (next: Store, successCount': nat, errorCount': nat, line: string)
    requires !reply.Threw?
    ensures next == if reply.Stored? then UpsertProfile(current, ToProfileWrite(item)) else current
    ensures errorCount' == errorCount + (if reply.Rejected? then 1 else 0)
    ensures successCount' + errorCount' == successCount + errorCount + 1
    ensures line == ProgressLine(i, n, item, reply)
  {
    next, successCount', errorCount' := current, successCount, errorCount;
    var counter := "[" + IntToString(i + 1) + "/" + IntToString(n) + "] ";
    if reply.Rejected? {
      line := "[ERROR] " + counter + "Échec pour " + item.fullName + ": " + reply.message;
      errorCount' := errorCount + 1;
    } else {
      next := UpsertProfile(current, ToProfileWrite(item));
      line := "[SUCCESS] " + counter + item.fullName + " synchronisé.";
      successCount' := successCount + 1;
    }
  }
}
