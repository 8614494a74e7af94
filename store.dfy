/**
 * The `alumni` table, abstracted to a map from `linkedin_url` (the column
 * every upsert conflicts on) to a row, and the writes the ingestion paths
 * apply to it.
 *
 * An upsert on `linkedin_url` inserts the row when the key is new and
 * otherwise updates only the columns the write supplies; columns it does
 * not name keep their stored value (or are null in a fresh row).
 */
module AlumniStore {
  import opened Wrappers

  /** Degree written by the spreadsheet import: the enrichment robot has not yet found the real one. */
  const IMPORTED_FROM_EXCEL: string := "Importé via Excel"
  /** Degree the enrichment robot writes when it found no education entry. */
  const NOT_FOUND: string := "Parcours non trouvé"
  /** Degree the sink writes when the record carries none. */
  const UNSPECIFIED: string := "Non spécifié"

  datatype Row = Row(
    firstName: string,
    lastName: string,
    linkedinUrl: string,
    avatarUrl: Option<string>,
    degree: Option<string>,
    entryYear: Option<int>,
    gradYear: Option<int>,
    email: Option<string>,
    currentJobTitle: Option<string>,
    currentCompany: Option<string>,
    companyLogo: Option<string>)

  type Store = map<string, Row>

  /** Every row sits under its own `linkedin_url`: one row per URL. */
  predicate WellKeyed(store: Store) {
    forall k :: k in store ==> store[k].linkedinUrl == k
  }

  /** A freshly inserted row before the write's columns are set: names empty, everything else null. */
  function BlankRow(url: string): Row {
    Row("", "", url, None, None, None, None, None, None, None, None)
  }

  /** The row an upsert on `url` starts from. */
  function Base(store: Store, url: string): Row {
    if url in store then store[url] else BlankRow(url)
  }

  /** What an upsert reported: stored, an `error` object returned, or an exception thrown. */
  datatype UpsertReply = Stored | Rejected(message: string) | Threw(message: string)

  // ---------------------------------------------------------------------
  // Profile writes (the ingestion sink and the JSON import script)

  /** The columns the ingestion sink writes (its `updated_at` is not modelled). */
  datatype ProfileWrite = ProfileWrite(
    firstName: string,
    lastName: string,
    linkedinUrl: string,
    avatarUrl: Option<string>,
    degree: string,
    entryYear: Option<int>,
    gradYear: Option<int>,
    email: Option<string>)

  function WriteProfile(r: Row, w: ProfileWrite): Row {
    r.(firstName := w.firstName, lastName := w.lastName, linkedinUrl := w.linkedinUrl,
       avatarUrl := w.avatarUrl, degree := Some(w.degree), entryYear := w.entryYear,
       gradYear := w.gradYear, email := w.email)
  }

  /** `upsert(row, { onConflict: 'linkedin_url' })` with a profile row. */
  function UpsertProfile(store: Store, w: ProfileWrite): Store {
    store[w.linkedinUrl := WriteProfile(Base(store, w.linkedinUrl), w)]
  }

  /**
   * An upsert adds or overwrites the row under the written URL, leaves every
   * other row alone, and keeps one row per URL.
   */
  lemma UpsertProfileFrame(store: Store, w: ProfileWrite)
    ensures UpsertProfile(store, w).Keys == store.Keys + {w.linkedinUrl}
    ensures forall k :: k in store && k != w.linkedinUrl ==> UpsertProfile(store, w)[k] == store[k]
  {
  }

  lemma UpsertProfileWellKeyed(store: Store, w: ProfileWrite)
    requires WellKeyed(store)
    ensures WellKeyed(UpsertProfile(store, w))
  {
  }

  /** Upserting the writes one after the other, first to last. */
  function ApplyProfiles(store: Store, ws: seq<ProfileWrite>): Store
    decreases |ws|
  {
    if ws == [] then store
    else UpsertProfile(ApplyProfiles(store, ws[..|ws| - 1]), ws[|ws| - 1])
  }

  lemma ApplyProfilesSnoc(store: Store, ws: seq<ProfileWrite>, w: ProfileWrite)
    ensures ApplyProfiles(store, ws + [w]) == UpsertProfile(ApplyProfiles(store, ws), w)
  {
    assert (ws + [w])[..|ws|] == ws;
  }

  /** The last write in `ws` for key `url`, if any. */
  function LastWrite(ws: seq<ProfileWrite>, url: string): (r: Option<ProfileWrite>)
    ensures r.Some? ==> r.value in ws && r.value.linkedinUrl == url
    ensures r.None? ==> forall w :: w in ws ==> w.linkedinUrl != url
    decreases |ws|
  {
    if ws == [] then None
    else if ws[|ws| - 1].linkedinUrl == url then Some(ws[|ws| - 1])
    else
      var r := LastWrite(ws[..|ws| - 1], url);
      assert forall w :: w in ws ==> w in ws[..|ws| - 1] || w == ws[|ws| - 1];
      r
  }

  /** A later profile write covers every column an earlier one wrote. */
  lemma WriteProfileAbsorbs(r: Row, w1: ProfileWrite, w2: ProfileWrite)
    ensures WriteProfile(WriteProfile(r, w1), w2) == WriteProfile(r, w2)
  {
  }

  /**
   * After a batch of upserts, a key holds a row exactly when it was stored
   * before or some write named it, and that row is the last such write laid
   * over what was stored before: the last write wins.
   */
  lemma {:induction false} ApplyProfilesAt(store: Store, ws: seq<ProfileWrite>, k: string)
    ensures k in ApplyProfiles(store, ws) <==> k in store || LastWrite(ws, k).Some?
    ensures k in ApplyProfiles(store, ws) ==>
      ApplyProfiles(store, ws)[k] ==
        if LastWrite(ws, k).Some? then WriteProfile(Base(store, k), LastWrite(ws, k).value)
        else store[k]
    decreases |ws|
  {
    if ws != [] {
      var init := ws[..|ws| - 1];
      var w := ws[|ws| - 1];
      ApplyProfilesAt(store, init, k);
      if w.linkedinUrl == k {
        var before := ApplyProfiles(store, init);
        if LastWrite(init, k).Some? {
          WriteProfileAbsorbs(Base(store, k), LastWrite(init, k).value, w);
        }
        assert Base(before, k) == (if LastWrite(init, k).Some? then WriteProfile(Base(store, k), LastWrite(init, k).value) else Base(store, k));
      }
    }
  }

  /** Re-running the same batch of upserts changes nothing further. */
  lemma ApplyProfilesIdempotent(store: Store, ws: seq<ProfileWrite>)
    ensures ApplyProfiles(ApplyProfiles(store, ws), ws) == ApplyProfiles(store, ws)
  {
    var once := ApplyProfiles(store, ws);
    var twice := ApplyProfiles(once, ws);
    forall k | true
      ensures k in twice <==> k in once
      ensures k in once ==> twice[k] == once[k]
    {
      ApplyProfilesAt(store, ws, k);
      ApplyProfilesAt(once, ws, k);
      if LastWrite(ws, k).Some? {
        WriteProfileAbsorbs(Base(store, k), LastWrite(ws, k).value, LastWrite(ws, k).value);
      }
    }
  }

  lemma {:induction false} ApplyProfilesWellKeyed(store: Store, ws: seq<ProfileWrite>)
    requires WellKeyed(store)
    ensures WellKeyed(ApplyProfiles(store, ws))
    decreases |ws|
  {
    if ws != [] {
      ApplyProfilesWellKeyed(store, ws[..|ws| - 1]);
      UpsertProfileWellKeyed(ApplyProfiles(store, ws[..|ws| - 1]), ws[|ws| - 1]);
    }
  }

  // ---------------------------------------------------------------------
  // Spreadsheet writes (the admin import)

  /** The columns the spreadsheet import writes: names, URL and the import sentinel as degree. */
  datatype SheetWrite = SheetWrite(firstName: string, lastName: string, linkedinUrl: string)

  function WriteSheet(r: Row, w: SheetWrite): Row {
    r.(firstName := w.firstName, lastName := w.lastName, linkedinUrl := w.linkedinUrl,
       degree := Some(IMPORTED_FROM_EXCEL))
  }

  /**
   * One `upsert(rows, { onConflict: 'linkedin_url' })` statement that goes
   * through, the rows written one after the other.
   */
  function ApplySheet(store: Store, ws: seq<SheetWrite>): (s: Store)
    ensures WellKeyed(store) ==> WellKeyed(s)
    ensures s.Keys == store.Keys + set w | w in ws :: w.linkedinUrl
    decreases |ws|
  {
    if ws == [] then store
    else
      var init := ws[..|ws| - 1];
      var w := ws[|ws| - 1];
      var before := ApplySheet(store, init);
      assert forall x :: x in ws <==> x in init || x == w;
      before[w.linkedinUrl := WriteSheet(Base(before, w.linkedinUrl), w)]
  }

  /** No two writes of the batch name the same URL. */
  predicate DistinctUrls(ws: seq<SheetWrite>) {
    forall i, j :: 0 <= i < j < |ws| ==> ws[i].linkedinUrl != ws[j].linkedinUrl
  }

  /** A row the batch does not name is left as it was. */
  lemma {:induction false} ApplySheetFrame(store: Store, ws: seq<SheetWrite>, k: string)
    requires k in store && forall w :: w in ws ==> w.linkedinUrl != k
    ensures ApplySheet(store, ws)[k] == store[k]
    decreases |ws|
  {
    if ws != [] {
      var init := ws[..|ws| - 1];
      assert forall w :: w in init ==> w in ws;
      ApplySheetFrame(store, init, k);
    }
  }

  /** Before a batch that does not name `url`, and after it, an upsert on `url` starts from the same row. */
  lemma ApplySheetBase(store: Store, ws: seq<SheetWrite>, url: string)
    requires forall w :: w in ws ==> w.linkedinUrl != url
    ensures Base(ApplySheet(store, ws), url) == Base(store, url)
  {
    if url in store {
      ApplySheetFrame(store, ws, url);
    } else {
      assert url !in ApplySheet(store, ws);
    }
  }

  /** Dropping the last write keeps the URLs distinct, and the last URL is not among the others. */
  lemma DistinctUrlsInit(ws: seq<SheetWrite>)
    requires DistinctUrls(ws) && ws != []
    ensures DistinctUrls(ws[..|ws| - 1])
    ensures forall w :: w in ws[..|ws| - 1] ==> w.linkedinUrl != ws[|ws| - 1].linkedinUrl
  {
    var init := ws[..|ws| - 1];
    forall w | w in init
      ensures w.linkedinUrl != ws[|ws| - 1].linkedinUrl
    {
      var j :| 0 <= j < |init| && init[j] == w;
      assert ws[j] == w;
    }
  }

  /**
   * With no URL named twice, each write of the batch lands on the row
   * stored under its URL before the batch, or on a blank row when there
   * was none.
   */
  /** The batch's last write is applied on top of the others. */
  lemma ApplySheetLast(store: Store, ws: seq<SheetWrite>)
    requires ws != []
    ensures var before := ApplySheet(store, ws[..|ws| - 1]);
      var last := ws[|ws| - 1];
      ApplySheet(store, ws) == before[last.linkedinUrl := WriteSheet(Base(before, last.linkedinUrl), last)]
  {
  }

  /** A write on another URL leaves a stored row as it was. */
  lemma ApplySheetKeeps(store: Store, ws: seq<SheetWrite>, url: string)
    requires ws != [] && url != ws[|ws| - 1].linkedinUrl && url in ApplySheet(store, ws[..|ws| - 1])
    ensures ApplySheet(store, ws)[url] == ApplySheet(store, ws[..|ws| - 1])[url]
  {
    ApplySheetLast(store, ws);
  }

  lemma {:induction false} ApplySheetAt(store: Store, ws: seq<SheetWrite>, i: nat)
    requires DistinctUrls(ws) && i < |ws|
    ensures ApplySheet(store, ws)[ws[i].linkedinUrl] == WriteSheet(Base(store, ws[i].linkedinUrl), ws[i])
    decreases |ws|
  {
    var n := |ws| - 1;
    var init := ws[..n];
    var url := ws[i].linkedinUrl;
    var want := WriteSheet(Base(store, url), ws[i]);
    DistinctUrlsInit(ws);
    if i < n {
      assert init[i] == ws[i];
      ApplySheetAt(store, init, i);
      ApplySheetKeeps(store, ws, url);
      calc {
        ApplySheet(store, ws)[url];
        ApplySheet(store, init)[url];
        want;
      }
    } else {
      var before := ApplySheet(store, init);
      ApplySheetLast(store, ws);
      ApplySheetBase(store, init, url);
      calc {
        ApplySheet(store, ws)[url];
        WriteSheet(Base(before, url), ws[n]);
        want;
      }
    }
  }

  // ---------------------------------------------------------------------
  // Enrichment writes (the profile robot)

  /** The columns the enrichment robot updates (its `updated_at` is not modelled). */
  datatype Enrichment = Enrichment(
    avatarUrl: Option<string>,
    currentJobTitle: Option<string>,
    currentCompany: Option<string>,
    companyLogo: Option<string>)

  /** `update(...).eq('id', …)`: changes the one existing row, inserts nothing. */
  function UpdateRow(store: Store, key: string, e: Enrichment): (s: Store)
    ensures s.Keys == store.Keys
    ensures forall k :: k in store && k != key ==> s[k] == store[k]
  {
    if key in store then
      store[key := store[key].(avatarUrl := e.avatarUrl, currentJobTitle := e.currentJobTitle,
                               currentCompany := e.currentCompany, companyLogo := e.companyLogo)]
    else store
  }
}
