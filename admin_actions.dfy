/**
 * The administrators' server actions: the spreadsheet import (role gate,
 * column fallbacks, URL normalisation and one batch upsert), the launch of
 * the enrichment robot, and the enrichment progress figures.
 */
module AdminActions {
  import opened Wrappers
  import opened Text
  import opened AlumniStore

  // ---------------------------------------------------------------------
  // Role gate

  /** Who calls the action: nobody signed in, or a user whose profile row has a role (or no profile row). */
  datatype Caller = Anonymous | SignedIn(role: Option<string>)

  const ADMIN: string := "ADMIN"
  const SUPER_ADMIN: string := "SUPER_ADMIN"

  predicate IsAdmin(caller: Caller) {
    caller.SignedIn? && caller.role.Some? && (caller.role.value == ADMIN || caller.role.value == SUPER_ADMIN)
  }

  /** The gate both actions open with; `deniedMessage` is the action's own refusal text. */
  function Gate(caller: Caller, deniedMessage: string): (r: Option<string>)
    ensures r.None? <==> IsAdmin(caller)
    ensures caller.Anonymous? ==> r == Some("Non authentifié")
    ensures caller.SignedIn? && !IsAdmin(caller) ==> r == Some(deniedMessage)
  {
    if caller.Anonymous? then Some("Non authentifié")
    else if !IsAdmin(caller) then Some(deniedMessage)
    else None
  }

  datatype ActionResult =
    | Failure(error: string)
    | Imported(count: nat)
    | ScanLaunched(message: string)

  // ---------------------------------------------------------------------
  // Spreadsheet rows

  /** A sheet row as `sheet_to_json` gives it: header to cell text; an absent header is a missing key. */
  type SheetRow = map<string, string>

  const FIRST_NAME_HEADERS: seq<string> := ["Prenom", "prenom", "First Name", "firstname"]
  const LAST_NAME_HEADERS: seq<string> := ["Nom", "nom", "Last Name", "lastname"]
  const URL_HEADERS: seq<string> := ["Linkedin", "linkedin", "LinkedIn URL"]

  function Cell(row: SheetRow, header: string): string {
    if header in row then row[header] else ""
  }

  /** `row[h1] || row[h2] || … || ''`: the first non-empty cell among the headers. */
  function FirstFilled(row: SheetRow, headers: seq<string>): (cell: string)
    ensures cell == "" || exists i :: 0 <= i < |headers| && cell == Cell(row, headers[i])
    decreases |headers|
  {
    if headers == [] then ""
    else if Cell(row, headers[0]) != "" then Cell(row, headers[0])
    else FirstFilled(row, headers[1..])
  }

  /**
   * The fallback chain is empty exactly when every header's cell is empty or
   * missing; otherwise it is the cell of the first header that has one.
   */
  lemma {:induction false} FirstFilledIsFirst(row: SheetRow, headers: seq<string>)
    ensures FirstFilled(row, headers) == "" <==> forall i :: 0 <= i < |headers| ==> Cell(row, headers[i]) == ""
    ensures FirstFilled(row, headers) != "" ==>
      exists i :: 0 <= i < |headers| && FirstFilled(row, headers) == Cell(row, headers[i]) &&
        forall j :: 0 <= j < i ==> Cell(row, headers[j]) == ""
    decreases |headers|
  {
    if headers != [] && Cell(row, headers[0]) == "" {
      FirstFilledIsFirst(row, headers[1..]);
      if FirstFilled(row, headers) != "" {
        var i :| 0 <= i < |headers| - 1 && FirstFilled(row, headers[1..]) == Cell(row, headers[1..][i]) &&
          forall j :: 0 <= j < i ==> Cell(row, headers[1..][j]) == "";
        assert FirstFilled(row, headers) == Cell(row, headers[i + 1]);
        assert forall j :: 0 <= j < i + 1 ==> Cell(row, headers[j]) == "" by {
          forall j | 0 <= j < i + 1
            ensures Cell(row, headers[j]) == ""
          {
            if j > 0 {
              assert headers[j] == headers[1..][j - 1];
            }
          }
        }
      } else {
        forall i | 0 <= i < |headers|
          ensures Cell(row, headers[i]) == ""
        {
          if i > 0 {
            assert headers[i] == headers[1..][i - 1];
          }
        }
      }
    }
  }

  function FirstName(row: SheetRow): string {
    FirstFilled(row, FIRST_NAME_HEADERS)
  }

  function LastName(row: SheetRow): string {
    FirstFilled(row, LAST_NAME_HEADERS)
  }

  function SuppliedUrl(row: SheetRow): string {
    FirstFilled(row, URL_HEADERS)
  }

  /** A supplied profile URL without its query string and with a trailing `/`. */
  function NormaliseUrl(url: string): (r: string)
    ensures '?' !in r
    ensures EndsWith(r, "/")
    ensures StartsWith(r, BeforeFirst(url, '?'))
  {
    var cut := BeforeFirst(url, '?');
    if EndsWith(cut, "/") then cut else cut + "/"
  }

  /** The normalised URL is the part before the first `?`, plus `/` unless it already ends in one. */
  lemma NormaliseUrlShape(url: string)
    ensures var cut := BeforeFirst(url, '?');
      NormaliseUrl(url) == cut || NormaliseUrl(url) == cut + "/"
    ensures |NormaliseUrl(url)| <= |BeforeFirst(url, '?')| + 1
    ensures NormaliseUrl(url) == BeforeFirst(url, '?') <==> EndsWith(BeforeFirst(url, '?'), "/")
  {
  }

  /** Normalising twice is normalising once. */
  lemma NormaliseUrlIdempotent(url: string)
    ensures NormaliseUrl(NormaliseUrl(url)) == NormaliseUrl(url)
  {
    var r := NormaliseUrl(url);
    SplitOnFree(r);
  }

  lemma SplitOnFree(r: string)
    requires '?' !in r
    ensures BeforeFirst(r, '?') == r
  {
  }

  /**
   * One spreadsheet row: dropped when the first or last name is empty;
   * otherwise its URL is the generated one when none is supplied and the
   * normalised supplied one otherwise. `gen` stands for the URL generator.
   */
  function MapRow(row: SheetRow, gen: (string, string) -> string): (r: Option<SheetWrite>)
    ensures r.Some? <==> FirstName(row) != "" && LastName(row) != ""
    ensures r.Some? ==> r.value.firstName == FirstName(row) && r.value.lastName == LastName(row)
    ensures r.Some? && SuppliedUrl(row) == "" ==> r.value.linkedinUrl == gen(FirstName(row), LastName(row))
    ensures r.Some? && SuppliedUrl(row) != "" ==>
      '?' !in r.value.linkedinUrl && EndsWith(r.value.linkedinUrl, "/") &&
      StartsWith(r.value.linkedinUrl, BeforeFirst(SuppliedUrl(row), '?')) &&
      r.value.linkedinUrl == NormaliseUrl(SuppliedUrl(row))
  {
    var firstName := FirstName(row);
    var lastName := LastName(row);
    var url := SuppliedUrl(row);
    if firstName == "" || lastName == "" then None
    else if url == "" then Some(SheetWrite(firstName, lastName, gen(firstName, lastName)))
    else Some(SheetWrite(firstName, lastName, NormaliseUrl(url)))
  }

  /** `rawData.map(…).filter(Boolean)`: the surviving rows, in sheet order. */
  function MapRows(rows: seq<SheetRow>, gen: (string, string) -> string): (ws: seq<SheetWrite>)
    ensures |ws| <= |rows|
    ensures forall w :: w in ws ==> exists row :: row in rows && MapRow(row, gen) == Some(w)
    decreases |rows|
  {
    if rows == [] then []
    else
      var rest := MapRows(rows[1..], gen);
      match MapRow(rows[0], gen)
      case None => rest
      case Some(w) => [w] + rest
  }

  /**
   * Mapping a sheet maps each part of it, keeping sheet order, and one row
   * gives its write exactly when it has both names.
   */
  lemma {:induction false} MapRowsConcat(a: seq<SheetRow>, b: seq<SheetRow>, gen: (string, string) -> string)
    ensures MapRows(a + b, gen) == MapRows(a, gen) + MapRows(b, gen)
    decreases |a|
  {
    if a == [] {
      assert a + b == b;
    } else {
      var ab := a + b;
      assert ab[0] == a[0] && ab[1..] == a[1..] + b;
      var e := Emitted(MapRow(a[0], gen));
      var ra, rb := MapRows(a[1..], gen), MapRows(b, gen);
      calc {
        MapRows(ab, gen);
      == { MapRowsCons(ab, gen); }
        e + MapRows(a[1..] + b, gen);
      == { MapRowsConcat(a[1..], b, gen); }
        e + (ra + rb);
      == { ConcatAssoc(e, ra, rb); }
        (e + ra) + rb;
      == { MapRowsCons(a, gen); }
        MapRows(a, gen) + rb;
      }
    }
  }

  /** A non-empty sheet: its first row's write, when it has one, then the rest. */
  lemma MapRowsCons(rows: seq<SheetRow>, gen: (string, string) -> string)
    requires rows != []
    ensures MapRows(rows, gen) == Emitted(MapRow(rows[0], gen)) + MapRows(rows[1..], gen)
  {
  }

  /** A single row gives its write exactly when it has both names. */
  lemma MapRowsSingle(row: SheetRow, gen: (string, string) -> string)
    ensures MapRows([row], gen) == Emitted(MapRow(row, gen))
  {
    MapRowsCons([row], gen);
    assert [row][1..] == [];
  }

  /** The writes an optional write contributes. */
  function Emitted(r: Option<SheetWrite>): (ws: seq<SheetWrite>)
    ensures |ws| <= 1
    ensures r.Some? ==> ws == [r.value]
    ensures r.None? ==> ws == []
  {
    if r.Some? then [r.value] else []
  }

  /** Every sheet row with both names has its write in the batch. */
  lemma {:induction false} MapRowsComplete(rows: seq<SheetRow>, gen: (string, string) -> string, i: nat)
    requires i < |rows| && MapRow(rows[i], gen).Some?
    ensures MapRow(rows[i], gen).value in MapRows(rows, gen)
    decreases |rows|
  {
    MapRowsCons(rows, gen);
    if i > 0 {
      assert rows[1..][i - 1] == rows[i];
      MapRowsComplete(rows[1..], gen, i - 1);
    }
  }

  /** The rows that survive are exactly those with both names. */
  predicate Named(row: SheetRow) {
    FirstName(row) != "" && LastName(row) != ""
  }

  function CountNamed(rows: seq<SheetRow>): nat
    decreases |rows|
  {
    if rows == [] then 0 else (if Named(rows[0]) then 1 else 0) + CountNamed(rows[1..])
  }

  /** One row is written for each sheet row with both names. */
  lemma {:induction false} MapRowsCount(rows: seq<SheetRow>, gen: (string, string) -> string)
    ensures |MapRows(rows, gen)| == CountNamed(rows)
    decreases |rows|
  {
    if rows != [] {
      MapRowsCount(rows[1..], gen);
    }
  }

  /** Every surviving row carries both names and a URL that is either generated from them or normalised. */
  lemma {:induction false} MapRowsFacts(rows: seq<SheetRow>, gen: (string, string) -> string)
    ensures forall w :: w in MapRows(rows, gen) ==>
      w.firstName != "" && w.lastName != "" &&
      (w.linkedinUrl == gen(w.firstName, w.lastName) || ('?' !in w.linkedinUrl && EndsWith(w.linkedinUrl, "/")))
    decreases |rows|
  {
    if rows != [] {
      MapRowsFacts(rows[1..], gen);
    }
  }

  /**
   * The database's answer to one `INSERT … ON CONFLICT DO UPDATE` statement
   * that proposes two rows with the same conflict key: PostgreSQL refuses
   * the whole statement.
   */
  const CONFLICT_TWICE: string := "ON CONFLICT DO UPDATE command cannot affect row a second time"

  /** What the uploaded file gives: nothing, a read error, or the first sheet's rows. */
  datatype Upload = NoFile | Unreadable(message: string) | Sheet(rows: seq<SheetRow>)

  /**
   * `importExcelData`: the role gate, then the file, then the mapped rows in
   * one upsert; any error of the read or of the upsert is reported as
   * `Erreur : …` and, the upsert being one statement, leaves the table as it was.
   * A batch naming one URL twice is always refused by the database
   * (`CONFLICT_TWICE`); `reply` is the database's answer to any other batch.
   */
  function ImportExcelData(caller: Caller, upload: Upload, gen: (string, string) -> string,
                           reply: UpsertReply, store: Store): (r: (Store, ActionResult))
    ensures r.1.Imported? || r.0 == store
    ensures r.1.Imported? ==>
      IsAdmin(caller) && upload.Sheet? && reply.Stored? &&
      r.0 == ApplySheet(store, MapRows(upload.rows, gen)) && r.1.count == |MapRows(upload.rows, gen)| > 0 &&
      DistinctUrls(MapRows(upload.rows, gen))
    ensures !r.1.Imported? ==> r.1.Failure?
    ensures IsAdmin(caller) && upload.Sheet? && MapRows(upload.rows, gen) != [] && !DistinctUrls(MapRows(upload.rows, gen))
      ==> r == (store, Failure("Erreur : " + CONFLICT_TWICE))
  {
    var denied := Gate(caller, "Accès réservé aux administrateurs");
    if denied.Some? then (store, Failure(denied.value))
    else if upload.NoFile? then (store, Failure("Aucun fichier fourni"))
    else if upload.Unreadable? then (store, Failure("Erreur : " + upload.message))
    else
      var ws := MapRows(upload.rows, gen);
      if ws == [] then (store, Failure("Aucune donnée valide trouvée dans le fichier"))
      else if !DistinctUrls(ws) then (store, Failure("Erreur : " + CONFLICT_TWICE))
      else if !reply.Stored? then (store, Failure("Erreur : " + reply.message))
      else (ApplySheet(store, ws), Imported(|ws|))
  }

  /** Only an administrator's import writes: anyone else gets the gate's refusal and the table is unchanged. */
  lemma ImportRequiresAdmin(caller: Caller, upload: Upload, gen: (string, string) -> string, reply: UpsertReply, store: Store)
    requires !IsAdmin(caller)
    ensures var (s, r) := ImportExcelData(caller, upload, gen, reply, store);
      s == store && r.Failure? &&
      r.error == (if caller.Anonymous? then "Non authentifié" else "Accès réservé aux administrateurs")
  {
  }

  /** A sheet with no row carrying both names writes nothing and says so. */
  lemma ImportNothingValid(caller: Caller, rows: seq<SheetRow>, gen: (string, string) -> string, reply: UpsertReply, store: Store)
    requires IsAdmin(caller) && CountNamed(rows) == 0
    ensures ImportExcelData(caller, Sheet(rows), gen, reply, store) ==
      (store, Failure("Aucune donnée valide trouvée dans le fichier"))
  {
    MapRowsCount(rows, gen);
  }

  /**
   * Two sheet rows with both names that give the same URL make the one
   * upsert statement fail: nothing is written, whatever the other rows.
   */
  lemma ImportRepeatedUrlRefused(caller: Caller, rows: seq<SheetRow>, gen: (string, string) -> string,
                                 reply: UpsertReply, store: Store, i: nat, j: nat)
    requires IsAdmin(caller) && i < j < |rows|
    requires MapRow(rows[i], gen).Some? && MapRow(rows[j], gen).Some?
    requires MapRow(rows[i], gen).value.linkedinUrl == MapRow(rows[j], gen).value.linkedinUrl
    ensures ImportExcelData(caller, Sheet(rows), gen, reply, store) == (store, Failure("Erreur : " + CONFLICT_TWICE))
  {
    RepeatedUrl(rows, gen, i, j);
  }

  /** Two rows with both names giving the same URL put that URL twice into the batch. */
  lemma RepeatedUrl(rows: seq<SheetRow>, gen: (string, string) -> string, i: nat, j: nat)
    requires i < j < |rows|
    requires MapRow(rows[i], gen).Some? && MapRow(rows[j], gen).Some?
    requires MapRow(rows[i], gen).value.linkedinUrl == MapRow(rows[j], gen).value.linkedinUrl
    ensures MapRows(rows, gen) != [] && !DistinctUrls(MapRows(rows, gen))
  {
    var x, y := MapRow(rows[i], gen).value, MapRow(rows[j], gen).value;
    var front := rows[..j];
    var f, r := MapRows(front, gen), MapRows(rows[j + 1..], gen);
    assert front[i] == rows[i];
    MapRowsComplete(front, gen, i);
    assert x in f;
    MapRowsAround(rows, gen, j);
    assert Emitted(MapRow(rows[j], gen)) == [y];
    SameUrlTwice(f, r, x, y);
  }

  /** The batch is the writes of the rows before row `j`, row `j`'s write if any, then the writes of the rows after it. */
  lemma MapRowsAround(rows: seq<SheetRow>, gen: (string, string) -> string, j: nat)
    requires j < |rows|
    ensures MapRows(rows, gen) == MapRows(rows[..j], gen) + (Emitted(MapRow(rows[j], gen)) + MapRows(rows[j + 1..], gen))
  {
    var front, back := rows[..j], rows[j..];
    assert back[0] == rows[j] && back[1..] == rows[j + 1..];
    calc {
      MapRows(rows, gen);
    == { assert rows == front + back; }
      MapRows(front + back, gen);
    == { MapRowsConcat(front, back, gen); }
      MapRows(front, gen) + MapRows(back, gen);
    == { MapRowsCons(back, gen); }
      MapRows(front, gen) + (Emitted(MapRow(rows[j], gen)) + MapRows(rows[j + 1..], gen));
    }
  }

  /** A write of the first part and the head of the second part with one URL make a batch with a repeat. */
  lemma SameUrlTwice(f: seq<SheetWrite>, rest: seq<SheetWrite>, x: SheetWrite, y: SheetWrite)
    requires x in f && x.linkedinUrl == y.linkedinUrl
    ensures f + ([y] + rest) != [] && !DistinctUrls(f + ([y] + rest))
  {
    var ws := f + ([y] + rest);
    var p :| 0 <= p < |f| && f[p] == x;
    assert ws[p] == x && ws[|f|] == y;
  }

  /** A rejected upsert is reported and, being one statement, writes none of the rows. */
  lemma ImportRejected(caller: Caller, upload: Upload, gen: (string, string) -> string, reply: UpsertReply, store: Store)
    requires !reply.Stored?
    ensures ImportExcelData(caller, upload, gen, reply, store).0 == store
    ensures ImportExcelData(caller, upload, gen, reply, store).1.Failure?
  {
  }

  /**
   * A successful import reports the number of rows with both names, and
   * each mapped row is then stored under its URL with the import sentinel
   * as degree.
   */
  lemma ImportSucceeded(caller: Caller, rows: seq<SheetRow>, gen: (string, string) -> string, store: Store)
    requires IsAdmin(caller) && CountNamed(rows) > 0 && DistinctUrls(MapRows(rows, gen))
    ensures var (s, r) := ImportExcelData(caller, Sheet(rows), gen, Stored, store);
      r == Imported(CountNamed(rows)) &&
      forall w :: w in MapRows(rows, gen) ==> w.linkedinUrl in s && s[w.linkedinUrl].degree == Some(IMPORTED_FROM_EXCEL)
  {
    ImportStored(caller, rows, gen, store);
    SheetDegrees(store, MapRows(rows, gen));
  }

  /** An administrator's import of a sheet with named rows applies the mapped rows and reports how many there were. */
  lemma ImportStored(caller: Caller, rows: seq<SheetRow>, gen: (string, string) -> string, store: Store)
    requires IsAdmin(caller) && CountNamed(rows) > 0 && DistinctUrls(MapRows(rows, gen))
    ensures ImportExcelData(caller, Sheet(rows), gen, Stored, store) ==
      (ApplySheet(store, MapRows(rows, gen)), Imported(CountNamed(rows)))
  {
    MapRowsCount(rows, gen);
    var ws := MapRows(rows, gen);
    assert ws != [] && DistinctUrls(ws);
    assert Gate(caller, "Accès réservé aux administrateurs").None?;
  }

  /** Every URL of the batch holds a row with the import sentinel as degree. */
  lemma SheetDegrees(store: Store, ws: seq<SheetWrite>)
    ensures forall w :: w in ws ==>
      w.linkedinUrl in ApplySheet(store, ws) && ApplySheet(store, ws)[w.linkedinUrl].degree == Some(IMPORTED_FROM_EXCEL)
  {
    forall w | w in ws
      ensures w.linkedinUrl in ApplySheet(store, ws) && ApplySheet(store, ws)[w.linkedinUrl].degree == Some(IMPORTED_FROM_EXCEL)
    {
      ApplySheetDegree(store, ws, w.linkedinUrl);
    }
  }

  /** After the batch, every URL it wrote holds a row with the import sentinel as degree. */
  lemma {:induction false} ApplySheetDegree(store: Store, ws: seq<SheetWrite>, url: string)
    requires exists w :: w in ws && w.linkedinUrl == url
    ensures url in ApplySheet(store, ws) && ApplySheet(store, ws)[url].degree == Some(IMPORTED_FROM_EXCEL)
    decreases |ws|
  {
    var init := ws[..|ws| - 1];
    var last := ws[|ws| - 1];
    if last.linkedinUrl != url {
      var w :| w in ws && w.linkedinUrl == url;
      assert w in init by {
        assert w in ws[..|ws| - 1] + [last];
      }
      ApplySheetDegree(store, init, url);
    }
  }

  // ---------------------------------------------------------------------
  // Enrichment launch

  /**
   * `startEnrichmentScan`: only an administrator launches the robot;
   * `launchError` is what launching the process raised, if anything.
   * The second component says whether the robot was launched.
   */
  function StartEnrichmentScan(caller: Caller, launchError: Option<string>): (r: (ActionResult, bool))
    ensures r.1 <==> r.0.ScanLaunched?
    ensures !r.1 ==> r.0.Failure?
  {
    var denied := Gate(caller, "Accès refusé");
    if denied.Some? then (Failure(denied.value), false)
    else if launchError.Some? then (Failure("Erreur : " + launchError.value), false)
    else (ScanLaunched("Le scan a été lancé. Une fenêtre LinkedIn va s'ouvrir."), true)
  }

  /** The robot is launched exactly for an administrator whose launch raised nothing. */
  lemma ScanRequiresAdmin(caller: Caller, launchError: Option<string>)
    ensures StartEnrichmentScan(caller, launchError).1 <==> IsAdmin(caller) && launchError.None?
    ensures !IsAdmin(caller) ==>
      StartEnrichmentScan(caller, launchError).0 == Failure(if caller.Anonymous? then "Non authentifié" else "Accès refusé")
  {
  }

  // ---------------------------------------------------------------------
  // Enrichment progress

  /** `degree` is neither null nor the import sentinel: the robot has been through the row. */
  predicate Processed(r: Row) {
    r.degree.Some? && r.degree.value != IMPORTED_FROM_EXCEL
  }

  function ProcessedKeys(store: Store): set<string> {
    set k | k in store && Processed(store[k])
  }

  /** `Math.round(processed / total * 100)`, 0 for an empty table, rounding halves up. */
  function Percentage(processed: nat, total: nat): (r: int)
    ensures total == 0 ==> r == 0
    ensures total > 0 ==> 2 * total * r <= 200 * processed + total < 2 * total * (r + 1)
    ensures r >= 0
    ensures processed <= total ==> r <= 100
  {
    if total == 0 then 0
    else
      var r := (200 * processed + total) / (2 * total);
      QuotientBracket(200 * processed + total, 2 * total);
      PercentageAtMostAll(processed, total, r);
      r
  }

  /** The quotient of Euclidean division brackets the dividend between two multiples of the divisor. */
  lemma QuotientBracket(n: nat, d: int)
    requires d > 0
    ensures n / d >= 0 && d * (n / d) <= n < d * (n / d + 1)
  {
  }

  lemma PercentageAtMostAll(processed: nat, total: nat, r: int)
    requires total > 0 && 2 * total * r <= 200 * processed + total
    ensures processed <= total ==> r <= 100
  {
    if processed <= total {
      assert (2 * r) * total <= 201 * total;
      CancelFactor(2 * r, 201, total);
    }
  }

  /** Nothing processed gives 0 and everything processed gives 100. */
  lemma PercentageEnds(processed: nat, total: nat)
    ensures processed == 0 ==> Percentage(processed, total) == 0
    ensures processed == total > 0 ==> Percentage(processed, total) == 100
  {
    var r := Percentage(processed, total);
    if processed == 0 && total > 0 {
      assert (2 * r) * total <= 1 * total;
      CancelFactor(2 * r, 1, total);
    }
    if processed == total > 0 {
      assert 201 * total < (2 * (r + 1)) * total;
      CancelFactorStrict(201, 2 * (r + 1), total);
    }
  }

  /** More rows processed of the same table never lowers the percentage. */
  lemma PercentageMonotone(p: nat, q: nat, total: nat)
    requires p <= q
    ensures Percentage(p, total) <= Percentage(q, total)
  {
    if total > 0 {
      var a, b := Percentage(p, total), Percentage(q, total);
      if a > b {
        assert 2 * total * (b + 1) <= 2 * total * a by {
          MulMonotone(2 * total, b + 1, a);
        }
        assert false;
      }
    }
  }

  lemma MulMonotone(k: nat, x: int, y: int)
    requires x <= y
    ensures k * x <= k * y
  {
  }

  lemma CancelFactorStrict(a: int, b: int, t: int)
    requires t > 0 && a * t < b * t
    ensures a < b
  {
  }

  /** A positive factor can be cancelled from an inequality. */
  lemma CancelFactor(a: int, b: int, t: int)
    requires t > 0 && a * t <= b * t
    ensures a <= b
  {
  }

  datatype Progress = Progress(total: nat, processed: nat, percentage: int)

  /** `getEnrichmentProgress` over the whole table. */
  function EnrichmentProgress(store: Store): (p: Progress)
    ensures p.processed <= p.total == |store|
    ensures 0 <= p.percentage <= 100
    ensures p.processed == 0 ==> p.percentage == 0
    ensures p.processed == p.total > 0 ==> p.percentage == 100
    ensures p.processed == |ProcessedKeys(store)| && p.percentage == Percentage(p.processed, p.total)
  {
    var done := ProcessedKeys(store);
    assert done <= store.Keys;
    SubsetCard(done, store.Keys);
    var total := |store|;
    var pct := Percentage(|done|, total);
    PercentageEnds(|done|, total);
    Progress(total, |done|, pct)
  }

  lemma SubsetCard<T>(a: set<T>, b: set<T>)
    requires a <= b
    ensures |a| <= |b|
  {
    if a != {} {
      var x :| x in a;
      SubsetCard(a - {x}, b - {x});
    }
  }

  /** A fresh spreadsheet import never counts as processed, whatever the row held before. */
  lemma ImportedRowsNotProcessed(store: Store, ws: seq<SheetWrite>, w: SheetWrite)
    requires w in ws
    ensures w.linkedinUrl in ApplySheet(store, ws) && !Processed(ApplySheet(store, ws)[w.linkedinUrl])
  {
    ApplySheetDegree(store, ws, w.linkedinUrl);
  }

  // ---------------------------------------------------------------------
  // One person, two keys

  /**
   * The spreadsheet import appends `/` to a supplied URL and the ingestion
   * sink stores URLs as given, so the same profile URL written both ways
   * ends up under two keys.
   */
  lemma SameProfileTwoKeys(store: Store, row: SheetRow, gen: (string, string) -> string, w: ProfileWrite)
    requires MapRow(row, gen).Some? && SuppliedUrl(row) != ""
    requires '?' !in SuppliedUrl(row) && !EndsWith(SuppliedUrl(row), "/")
    requires w.linkedinUrl == SuppliedUrl(row)
    ensures var s := ApplyProfiles(ApplySheet(store, [MapRow(row, gen).value]), [w]);
      w.linkedinUrl in s && SuppliedUrl(row) + "/" in s && w.linkedinUrl != SuppliedUrl(row) + "/"
  {
    var u := SuppliedUrl(row);
    SplitOnFree(u);
    assert MapRow(row, gen).value.linkedinUrl == u + "/";
    assert |u + "/"| != |u|;
  }
}
