/**
 * The ingestion library: splitting a full name, reading a year, and the
 * sink that upserts a batch of alumni records into the `alumni` table,
 * counting successes and failures and logging one line per record.
 */
module AlumniSync {
  import opened Wrappers
  import opened Text
  import opened JsNumbers
  import opened AlumniStore

  datatype Name = Name(firstName: string, lastName: string)

  /**
   * `parseName`: the trimmed name split at white-space runs; the first piece
   * is the first name and the other pieces, joined by single spaces, the
   * last name.
   */
  function ParseName(fullName: string): (r: Name)
    ensures r.firstName == if Words(fullName) == [] then "" else Words(fullName)[0]
    ensures r.lastName == if |Words(fullName)| <= 1 then "" else Join(Words(fullName)[1..], " ")
  {
    SplitOfTrim(fullName);
    var parts := SplitSpaces(Trim(fullName));
    if |parts| == 1 then Name(parts[0], "")
    else Name(parts[0], Join(parts[1..], " "))
  }

  /** A year as a JSON record may carry it. */
  datatype YearValue = Undefined | Null | Number(n: int) | Str(s: string)

  /**
   * `parseYear`: absent values and `''` give null, anything else is read by
   * `parseInt` from its printed form, and `NaN` gives null.
   */
  function ParseYear(year: YearValue): (r: Option<int>)
    ensures year.Undefined? || year.Null? ==> r == None
    ensures year.Number? ==> r == Some(year.n)
    ensures year.Str? ==> r == ParseInt(year.s)
  {
    match year
    case Undefined => None
    case Null => None
    case Number(n) =>
      ParseIntRoundTrip(n);
      ParseInt(IntToString(n))
    case Str(s) => if s == "" then None else ParseInt(s)
  }

  /** A record handed to the sink. */
  datatype AlumniData = AlumniData(
    fullName: string,
    linkedinUrl: string,
    profileImageUrl: Option<string>,
    degree: Option<string>,
    entryYear: YearValue,
    gradYear: YearValue,
    email: Option<string>)

  /** The row the sink builds for one record. */
  function ToProfileWrite(item: AlumniData): ProfileWrite
  {
    var name := ParseName(item.fullName);
    ProfileWrite(
      name.firstName, name.lastName, item.linkedinUrl,
      OrNull(item.profileImageUrl),
      OrNull(item.degree).GetOr(UNSPECIFIED),
      ParseYear(item.entryYear), ParseYear(item.gradYear),
      OrNull(item.email))
  }

  // ---------------------------------------------------------------------
  // The batch, described by functions of the records and the upsert replies

  /** How many records the loop gets through: up to the first upsert that throws. */
  function Reached(replies: seq<UpsertReply>): (n: nat)
    ensures n <= |replies|
    ensures forall j :: 0 <= j < n ==> !replies[j].Threw?
    ensures n == |replies| || replies[n].Threw?
    decreases |replies|
  {
    if replies == [] || replies[0].Threw? then 0 else 1 + Reached(replies[1..])
  }

  lemma {:induction false} ReachedAt(replies: seq<UpsertReply>, i: nat)
    requires i <= |replies|
    requires forall j :: 0 <= j < i ==> !replies[j].Threw?
    requires i == |replies| || replies[i].Threw?
    ensures Reached(replies) == i
    decreases i
  {
    if i > 0 {
      ReachedAt(replies[1..], i - 1);
    }
  }

  /** The rows actually stored: those of the records whose upsert succeeded, in order. */
  function Writes(data: seq<AlumniData>, replies: seq<UpsertReply>): seq<ProfileWrite>
    requires |replies| == |data|
    decreases |data|
  {
    if data == [] then []
    else
      var n := |data| - 1;
      Writes(data[..n], replies[..n]) + if replies[n].Stored? then [ToProfileWrite(data[n])] else []
  }

  /** How many upserts returned an error. */
  function Failures(replies: seq<UpsertReply>): (n: nat)
    ensures n <= |replies|
    decreases |replies|
  {
    if replies == [] then 0
    else Failures(replies[..|replies| - 1]) + if replies[|replies| - 1].Rejected? then 1 else 0
  }

  /** What one more record adds to the stored rows and to the failure count. */
  lemma BatchStep(data: seq<AlumniData>, replies: seq<UpsertReply>, i: nat)
    requires |replies| == |data| && i < |data|
    ensures Failures(replies[..i + 1]) == Failures(replies[..i]) + if replies[i].Rejected? then 1 else 0
    ensures replies[i].Stored? ==>
      Writes(data[..i + 1], replies[..i + 1]) == Writes(data[..i], replies[..i]) + [ToProfileWrite(data[i])]
    ensures !replies[i].Stored? ==>
      Writes(data[..i + 1], replies[..i + 1]) == Writes(data[..i], replies[..i])
  {
    assert data[..i + 1][..i] == data[..i] && replies[..i + 1][..i] == replies[..i];
    var ws := Writes(data[..i], replies[..i]);
    assert ws + [] == ws;
  }

  /** The log line for one record whose upsert returned. */
  function LogLine(item: AlumniData, reply: UpsertReply): string
    requires !reply.Threw?
  {
    if reply.Rejected? then "[ERROR] " + item.fullName + ": " + reply.message
    else "[SUCCESS] " + item.fullName + " synchronisé."
  }

  datatype SyncResult = SyncResult(successCount: nat, errorCount: nat, logs: seq<string>)

  /** The sink either returns its counts or propagates the exception of a throwing upsert. */
  datatype SyncOutcome = Synced(result: SyncResult) | SyncThrew(message: string)

  /**
   * `syncAlumniData`: each record in turn is upserted on its URL; an error
   * reply is logged and counted and the loop goes on with the next record.
   */
  method SyncAlumniData(store: Store, data: seq<AlumniData>, replies: seq<UpsertReply>)
      returns (outcome: SyncOutcome, store': Store)
    requires |replies| == |data|
    ensures var n := Reached(replies);
      store' == ApplyProfiles(store, Writes(data[..n], replies[..n]))
    ensures outcome.SyncThrew? <==> Reached(replies) < |data|
    ensures outcome.SyncThrew? ==> outcome.message == replies[Reached(replies)].message
    ensures outcome.Synced? ==>
      var res := outcome.result;
      res.successCount + res.errorCount == |data| && res.errorCount == Failures(replies) &&
      LogsUpTo(res.logs, data, replies, |data|)
  {
    var i, successCount, errorCount, logs;
    i, store', successCount, errorCount, logs := SyncLoop(store, data, replies);
    ReachedAt(replies, i);
    if i < |data| {
      outcome := SyncThrew(replies[i].message);
    } else {
      assert data[..i] == data && replies[..i] == replies;
      outcome := Synced(SyncResult(successCount, errorCount, logs));
    }
  }

  /** The loop of `syncAlumniData`: it stops at the end of the batch or at the first upsert that throws. */
  method SyncLoop(store: Store, data: seq<AlumniData>, replies: seq<UpsertReply>)
      returns (i: nat, store': Store, successCount: nat, errorCount: nat, logs: seq<string>)
    requires |replies| == |data|
    ensures i <= |data| && (i == |data| || replies[i].Threw?)
    ensures forall j :: 0 <= j < i ==> !replies[j].Threw?
    ensures store' == ApplyProfiles(store, Writes(data[..i], replies[..i]))
    ensures errorCount == Failures(replies[..i]) && successCount + errorCount == i
    ensures LogsUpTo(logs, data, replies, i)
  {
    successCount, errorCount := 0, 0;
    logs := [];
    store' := store;
    i := 0;
    while i < |data| && !replies[i].Threw?
      invariant SyncedUpTo(store, data, replies, i, store', successCount, errorCount)
      invariant LogsUpTo(logs, data, replies, i)
    {
      var next, successCount', errorCount', line := SyncRecord(store', successCount, errorCount, data[i], replies[i]);
      SyncedStep(store, data, replies, i, store', successCount, errorCount, next, successCount', errorCount');
      LogsStep(logs, data, replies, i, line);
      store', successCount, errorCount := next, successCount', errorCount';
      logs := logs + [line];
      i := i + 1;
    }
  }

  /**
   * The loop's state after the first `i` records: none of their upserts
   * threw, the table holds the rows of those that were stored, and the
   * counters count the rejected ones and the others.
   */
  predicate SyncedUpTo(store: Store, data: seq<AlumniData>, replies: seq<UpsertReply>, i: nat,
                       current: Store, successCount: nat, errorCount: nat)
    requires |replies| == |data|
  {
    i <= |data| &&
    (forall j :: 0 <= j < i ==> !replies[j].Threw?) &&
    current == ApplyProfiles(store, Writes(data[..i], replies[..i])) &&
    errorCount == Failures(replies[..i]) && successCount + errorCount == i
  }

  /** Handling record `i` as the loop body does moves the state on to the first `i + 1` records. */
  lemma SyncedStep(store: Store, data: seq<AlumniData>, replies: seq<UpsertReply>, i: nat,
                   current: Store, successCount: nat, errorCount: nat,
                   next: Store, successCount': nat, errorCount': nat)
    requires |replies| == |data| && i < |data| && !replies[i].Threw?
    requires SyncedUpTo(store, data, replies, i, current, successCount, errorCount)
    requires next == if replies[i].Stored? then UpsertProfile(current, ToProfileWrite(data[i])) else current
    requires errorCount' == errorCount + (if replies[i].Rejected? then 1 else 0)
    requires successCount' + errorCount' == successCount + errorCount + 1
    ensures SyncedUpTo(store, data, replies, i + 1, next, successCount', errorCount')
  {
    BatchStep(data, replies, i);
    StoreStep(store, data, replies, i);
  }

  /**
   * One record whose upsert returned: a rejection is counted as an error, a
   * stored row is upserted and counted as a success, and the line logged says
   * which.
   */
  method SyncRecord(current: Store, successCount: nat, errorCount: nat, item: AlumniData, reply: UpsertReply)
      returns (next: Store, successCount': nat, errorCount': nat, line: string)
    requires !reply.Threw?
    ensures next == if reply.Stored? then UpsertProfile(current, ToProfileWrite(item)) else current
    ensures errorCount' == errorCount + (if reply.Rejected? then 1 else 0)
    ensures successCount' + errorCount' == successCount + errorCount + 1
    ensures line == LogLine(item, reply)
  {
    next, successCount', errorCount' := current, successCount, errorCount;
    if reply.Rejected? {
      line := "[ERROR] " + item.fullName + ": " + reply.message;
      errorCount' := errorCount + 1;
    } else {
      next := UpsertProfile(current, ToProfileWrite(item));
      line := "[SUCCESS] " + item.fullName + " synchronisé.";
      successCount' := successCount + 1;
    }
  }

  /** Upserting the next record's row, when it was stored, extends the store by the next write. */
  lemma StoreStep(store: Store, data: seq<AlumniData>, replies: seq<UpsertReply>, i: nat)
    requires |replies| == |data| && i < |data|
    ensures ApplyProfiles(store, Writes(data[..i + 1], replies[..i + 1])) ==
      var before := ApplyProfiles(store, Writes(data[..i], replies[..i]));
      if replies[i].Stored? then UpsertProfile(before, ToProfileWrite(data[i])) else before
  {
    BatchStep(data, replies, i);
    if replies[i].Stored? {
      ApplyProfilesSnoc(store, Writes(data[..i], replies[..i]), ToProfileWrite(data[i]));
    }
  }

  /** The first `i` log lines are those of the first `i` records. */
  predicate LogsUpTo(logs: seq<string>, data: seq<AlumniData>, replies: seq<UpsertReply>, i: nat)
    requires i <= |data| == |replies|
    requires forall j :: 0 <= j < i ==> !replies[j].Threw?
  {
    |logs| == i && forall j :: 0 <= j < i ==> logs[j] == LogLine(data[j], replies[j])
  }

  lemma LogsStep(logs: seq<string>, data: seq<AlumniData>, replies: seq<UpsertReply>, i: nat, line: string)
    requires i < |data| == |replies|
    requires forall j :: 0 <= j <= i ==> !replies[j].Threw?
    requires LogsUpTo(logs, data, replies, i)
    requires line == LogLine(data[i], replies[i])
    ensures LogsUpTo(logs + [line], data, replies, i + 1)
  {
    var extended := logs + [line];
    forall j | 0 <= j < i + 1
      ensures extended[j] == LogLine(data[j], replies[j])
    {
      if j < i {
        assert extended[j] == logs[j];
      }
    }
  }

  // ---------------------------------------------------------------------
  // Facts

  /**
   * The row's defaults: the degree is the supplied one unless that is absent
   * or empty, in which case it is "Non spécifié"; an absent or empty photo or
   * e-mail is null; the URL is passed through as given.
   */
  lemma ProfileWriteDefaults(item: AlumniData)
    ensures var w := ToProfileWrite(item);
      Name(w.firstName, w.lastName) == ParseName(item.fullName) &&
      w.linkedinUrl == item.linkedinUrl &&
      w.degree != "" &&
      (w.degree == UNSPECIFIED <==> OrNull(item.degree) == None || item.degree == Some(UNSPECIFIED)) &&
      (w.degree != UNSPECIFIED ==> item.degree == Some(w.degree)) &&
      (w.avatarUrl.Some? <==> item.profileImageUrl.Some? && item.profileImageUrl.value != "") &&
      (w.avatarUrl.Some? ==> w.avatarUrl == item.profileImageUrl) &&
      (w.email.Some? <==> item.email.Some? && item.email.value != "") &&
      (w.email.Some? ==> w.email == item.email) &&
      w.entryYear == ParseYear(item.entryYear) && w.gradYear == ParseYear(item.gradYear)
  {
  }

  /** A single token is the first name and the last name is empty. */
  lemma ParseNameSingleToken(w: string)
    requires w != [] && NoSpace(w)
    ensures ParseName(w) == Name(w, "")
  {
    assert Trim(w) == w;
    WordsTrim(w);
    SplitTrimmed(w);
    assert SplitSpaces(w) == [w];
  }

  /** Surrounding white space does not change the split. */
  lemma ParseNameTrims(fullName: string)
    ensures ParseName(Trim(fullName)) == ParseName(fullName)
  {
    WordsTrim(fullName);
  }

  /**
   * The first name, followed by a space and the last name when there is
   * one, gives back the trimmed name with each white-space run collapsed to
   * a single space.
   */
  lemma ParseNameRecombines(fullName: string)
    ensures var r := ParseName(fullName);
      r.firstName + (if r.lastName != "" then " " + r.lastName else "") == Squeeze(Trim(fullName))
  {
    var ws := Words(fullName);
    var r := ParseName(fullName);
    WordsTrim(fullName);
    SqueezeIsJoinedWords(Trim(fullName));
    if |ws| > 1 {
      WordsAreTokens(fullName);
      assert ws[1] in ws;
      JoinNonEmpty(ws[1..], " ");
      JoinHeadTail(ws, " ");
    } else if |ws| == 1 {
      JoinHeadTail(ws, " ");
    }
  }

  /**
   * Tokens joined by single spaces split back into the first token and the
   * rest joined again.
   */
  lemma ParseNameOfTokens(ws: seq<string>)
    requires ws != []
    requires forall i :: 0 <= i < |ws| ==> ws[i] != [] && NoSpace(ws[i])
    ensures ParseName(Join(ws, " ")) == Name(ws[0], if |ws| == 1 then "" else Join(ws[1..], " "))
  {
    WordsOfJoin(ws);
  }

  /** The name cases of the tests. */
  lemma ParseNameExampleTwoWords()
    ensures ParseName("Jean Dupont") == Name("Jean", "Dupont")
  {
    var ws := ["Jean", "Dupont"];
    assert Join(ws, " ") == "Jean Dupont";
    assert NoSpace("Jean") && NoSpace("Dupont");
    ParseNameOfTokens(ws);
  }

  lemma ParseNameExampleMiddleNames()
    ensures ParseName("Jean-Baptiste de La Salle") == Name("Jean-Baptiste", "de La Salle")
  {
    var ws := ["Jean-Baptiste", "de", "La", "Salle"];
    MiddleNamesJoined();
    MiddleNamesTokens();
    assert ws[1..] == ["de", "La", "Salle"];
    ParseNameOfTokens(ws);
  }

  lemma MiddleNamesJoined()
    ensures Join(["Jean-Baptiste", "de", "La", "Salle"], " ") == "Jean-Baptiste de La Salle"
    ensures Join(["de", "La", "Salle"], " ") == "de La Salle"
  {
  }

  lemma MiddleNamesTokens()
    ensures NoSpace("Jean-Baptiste") && NoSpace("de") && NoSpace("La") && NoSpace("Salle")
  {
  }

  lemma ParseNameExampleSingle()
    ensures ParseName("Cher") == Name("Cher", "")
  {
    assert NoSpace("Cher");
    ParseNameSingleToken("Cher");
  }

  /** A year printed as text, whatever non-digit text follows it, is read back. */
  lemma ParseYearOfPrinted(n: int, rest: string)
    requires rest == [] || !IsDigit(rest[0])
    requires n == 0 && rest != [] ==> rest[0] != 'x' && rest[0] != 'X'
    ensures ParseYear(Str(IntToString(n) + rest)) == Some(n)
  {
    ParseIntOfPrinted(n, rest);
  }

  /** Text with no digit at all is no year. */
  lemma ParseYearNoDigit(s: string)
    requires forall i :: 0 <= i < |s| ==> !IsDigit(s[i])
    ensures ParseYear(Str(s)) == None
  {
    ParseIntNoDigit(s);
  }

  /** The year cases of the tests. */
  lemma ParseYearExamples()
    ensures ParseYear(Str("")) == None
    ensures ParseYear(Null) == None && ParseYear(Undefined) == None
    ensures ParseYear(Number(2021)) == Some(2021)
  {
  }

  lemma ParseYearExample2023()
    ensures ParseYear(Str("2023")) == Some(2023)
  {
    ParseIntRoundTrip(2023);
    Printed2023();
  }

  lemma ParseYearExample2024()
    ensures ParseYear(Str("2024")) == Some(2024)
  {
    ParseIntRoundTrip(2024);
    Printed2024();
  }

  lemma ParseYearExampleLetters(s: string)
    requires s == "abcd"
    ensures ParseYear(Str(s)) == None
  {
    assert !IsDigit(s[0]) && !IsDigit(s[1]) && !IsDigit(s[2]) && !IsDigit(s[3]);
    ParseYearNoDigit(s);
  }

  /** Only the leading digits count: a range such as "2020-2023" reads as its first year. */
  lemma ParseYearExampleRange()
    ensures ParseYear(Str("2020-2023")) == Some(2020)
  {
    RangeText();
    ParseYearOfPrinted(2020, "-2023");
  }

  lemma RangeText()
    ensures IntToString(2020) + "-2023" == "2020-2023"
  {
    Printed2020();
  }

  lemma Printed2023()
    ensures IntToString(2023) == "2023"
  {
    assert NatToString(2) == "2";
    assert NatToString(20) == "20";
    assert NatToString(202) == "202";
  }

  lemma Printed2024()
    ensures IntToString(2024) == "2024"
  {
    assert NatToString(2) == "2";
    assert NatToString(20) == "20";
    assert NatToString(202) == "202";
  }

  lemma Printed2020()
    ensures IntToString(2020) == "2020"
  {
    assert NatToString(2) == "2";
    assert NatToString(20) == "20";
    assert NatToString(202) == "202";
  }

  /** A `0x` prefix makes `parseInt` read hexadecimal digits. */
  lemma ParseYearExampleHex()
    ensures ParseYear(Str("0x7E8")) == Some(2024)
  {
    var u := "0x7E8";
    TrimStartKeeps(u);
    assert u[0] == '0' && u[1] == 'x' && u[2..] == "7E8";
    HexDigits();
    assert ParseDigits(u) == Some(2024);
  }

  lemma HexDigits()
    ensures DigitPrefix("7E8", 16) == "7E8" && Value("7E8", 16) == 2024
  {
    assert "7E8"[..2] == "7E" && "7E"[..1] == "7" && "7"[..0] == "";
  }

  /** The counts always account for the whole batch. */
  lemma {:induction false} FailuresAndStores(data: seq<AlumniData>, replies: seq<UpsertReply>)
    requires |replies| == |data|
    requires forall j :: 0 <= j < |replies| ==> !replies[j].Threw?
    ensures |Writes(data, replies)| + Failures(replies) == |data|
    decreases |data|
  {
    if data != [] {
      var n := |data| - 1;
      FailuresAndStores(data[..n], replies[..n]);
    }
  }

  /**
   * A record whose upsert succeeded is stored under its URL, whatever the
   * other records' replies were (a failure only skips its own record).
   */
  lemma {:induction false} StoredRecordIsKept(store: Store, data: seq<AlumniData>, replies: seq<UpsertReply>, j: nat)
    requires |replies| == |data| && j < |data| && replies[j].Stored?
    ensures data[j].linkedinUrl in ApplyProfiles(store, Writes(data, replies))
  {
    var w := ToProfileWrite(data[j]);
    WriteIsListed(data, replies, j);
    ApplyProfilesAt(store, Writes(data, replies), w.linkedinUrl);
  }

  lemma {:induction false} WriteIsListed(data: seq<AlumniData>, replies: seq<UpsertReply>, j: nat)
    requires |replies| == |data| && j < |data| && replies[j].Stored?
    ensures ToProfileWrite(data[j]) in Writes(data, replies)
    decreases |data|
  {
    var n := |data| - 1;
    if j < n {
      assert data[..n][j] == data[j] && replies[..n][j] == replies[j];
      WriteIsListed(data[..n], replies[..n], j);
      WritesGrow(data, replies, ToProfileWrite(data[j]));
    } else {
      LastWriteListed(data, replies);
    }
  }

  /** A row stored for the records before the last is still among the rows stored for all of them. */
  lemma WritesGrow(data: seq<AlumniData>, replies: seq<UpsertReply>, w: ProfileWrite)
    requires |replies| == |data| && data != []
    requires w in Writes(data[..|data| - 1], replies[..|data| - 1])
    ensures w in Writes(data, replies)
  {
  }

  /** The last record's row is stored when its upsert succeeded. */
  lemma LastWriteListed(data: seq<AlumniData>, replies: seq<UpsertReply>)
    requires |replies| == |data| && data != [] && replies[|data| - 1].Stored?
    ensures ToProfileWrite(data[|data| - 1]) in Writes(data, replies)
  {
  }

  /** A rejected record contributes no row: the stored rows are those of the other records. */
  lemma RejectedRecordSkipped(data: seq<AlumniData>, replies: seq<UpsertReply>, item: AlumniData, message: string)
    requires |replies| == |data|
    ensures Writes(data + [item], replies + [Rejected(message)]) == Writes(data, replies)
  {
    assert (data + [item])[..|data|] == data;
    assert (replies + [Rejected(message)])[..|data|] == replies;
  }

  /** The sink keeps one row under each URL, and running the same batch again leaves the same rows. */
  lemma SyncTwiceSameRows(store: Store, data: seq<AlumniData>, replies: seq<UpsertReply>)
    requires |replies| == |data| && WellKeyed(store)
    ensures var once := ApplyProfiles(store, Writes(data, replies));
      WellKeyed(once) && ApplyProfiles(once, Writes(data, replies)) == once
  {
    ApplyProfilesWellKeyed(store, Writes(data, replies));
    ApplyProfilesIdempotent(store, Writes(data, replies));
  }
}
