/**
 * The profile robot: every alumnus still missing a current company or a
 * current job title is visited once; the robot reads the profile photo and
 * the first experience entry (or, when no experience is visible, the
 * headline) and updates the four enrichment columns of that row. The
 * browser session, what each profile page shows and the database replies
 * are inputs; the login and the waits are reduced to whether they
 * succeeded.
 */
module EnrichProfiles {
  import opened Wrappers
  import opened Text
  import opened AlumniStore
  import opened AdminActions

  /** The query's filter: `current_company` is null or `current_job_title` is null. */
  predicate Pending(r: Row) {
    r.currentCompany.None? || r.currentJobTitle.None?
  }

  /** The rows the query returns: the pending rows of the table, in table order. */
  function Selection(table: seq<Row>): (sel: seq<Row>)
    ensures |sel| <= |table|
    ensures forall r :: r in sel ==> r in table && Pending(r)
    ensures forall r :: r in table && Pending(r) ==> r in sel
    decreases |table|
  {
    if table == [] then []
    else
      var rest := Selection(table[1..]);
      assert forall r :: r in table ==> r == table[0] || r in table[1..];
      if Pending(table[0]) then [table[0]] + rest else rest
  }

  /**
   * `table` is what a query of `store` returns: every row of the store once,
   * the store keeping each row under its own URL.
   */
  predicate ListsRows(store: Store, table: seq<Row>) {
    WellKeyed(store) &&
    (forall r :: r in table ==> r.linkedinUrl in store && store[r.linkedinUrl] == r) &&
    (forall k :: k in store ==> store[k] in table) &&
    (forall i, j :: 0 <= i < j < |table| ==> table[i].linkedinUrl != table[j].linkedinUrl)
  }

  /** Over the rows of the store, the robot selects exactly the pending rows, each by its URL. */
  lemma SelectionOfStore(store: Store, table: seq<Row>)
    requires ListsRows(store, table)
    ensures forall k :: k in store ==>
      (Pending(store[k]) <==> exists p :: p in Selection(table) && p.linkedinUrl == k)
  {
    forall k | k in store
      ensures Pending(store[k]) <==> exists p :: p in Selection(table) && p.linkedinUrl == k
    {
      if Pending(store[k]) {
        assert store[k] in table;
        assert store[store[k].linkedinUrl] == store[k];
      } else {
        forall p | p in Selection(table) ensures p.linkedinUrl != k {
          assert p in table && Pending(p);
        }
      }
    }
  }

  /** What the first experience entry shows; each read that fails gives null. */
  datatype Experience = Experience(title: Option<string>, company: Option<string>, logo: Option<string>)

  /**
   * One visit: the navigation or the scrolling threw, or the profile was
   * read (its photo, its first experience entry when one is visible, its
   * headline) and the update was sent, the database storing it or
   * returning an error.
   */
  datatype Visit =
    | Crashed(message: string)
    | Profile(photo: Option<string>, firstExperience: Option<Experience>, headline: Option<string>, stored: bool)

  /** `s?.trim()`. */
  function TrimOpt(s: Option<string>): (r: Option<string>)
    ensures r.Some? <==> s.Some?
    ensures r.Some? ==> Trimmed(r.value)
  {
    if s.Some? then Some(Trim(s.value)) else None
  }

  /** The company as kept after `if (companyName) companyName = companyName.split('·')[0].trim()`. */
  function CompanyName(read: Option<string>): Option<string> {
    if read.Some? && read.value != "" then Some(Trim(BeforeFirst(read.value, '·'))) else read
  }

  /**
   * The columns written for `person`: the photo found, or the stored avatar
   * when none was; the job title and company trimmed, blank giving null;
   * the logo, the empty string giving null. Without an experience entry the
   * headline is the job title and neither company nor logo is read.
   */
  function Update(person: Row, photo: Option<string>, firstExperience: Option<Experience>,
                  headline: Option<string>): (e: Enrichment)
    ensures e.currentJobTitle.Some? ==> e.currentJobTitle.value != "" && Trimmed(e.currentJobTitle.value)
    ensures e.currentCompany.Some? ==>
      firstExperience.Some? && e.currentCompany.value != "" && Trimmed(e.currentCompany.value)
    ensures e.companyLogo.Some? ==> firstExperience.Some? && e.companyLogo.value != ""
  {
    var jobTitle := if firstExperience.Some? then firstExperience.value.title else headline;
    var companyName := if firstExperience.Some? then CompanyName(firstExperience.value.company) else None;
    var companyLogo := if firstExperience.Some? then firstExperience.value.logo else None;
    Enrichment(if OrNull(photo).Some? then photo else person.avatarUrl,
               OrNull(TrimOpt(jobTitle)), OrNull(TrimOpt(companyName)), OrNull(companyLogo))
  }

  /** What one visit does to the table. */
  function Visited(store: Store, person: Row, v: Visit): Store {
    match v
    case Crashed(_) => store
    case Profile(photo, firstExperience, headline, stored) =>
      if stored then UpdateRow(store, person.linkedinUrl, Update(person, photo, firstExperience, headline))
      else store
  }

  /** The table after visiting `people` in order. */
  function Enriched(store: Store, people: seq<Row>, visits: seq<Visit>): Store
    requires |people| == |visits|
    decreases |people|
  {
    if people == [] then store
    else
      var n := |people| - 1;
      Visited(Enriched(store, people[..n], visits[..n]), people[n], visits[n])
  }

  /** The `[ERREUR]` messages of the visits that threw, in order. */
  function Errors(visits: seq<Visit>): (errors: seq<string>)
    ensures |errors| <= |visits|
    decreases |visits|
  {
    if visits == [] then []
    else
      var n := |visits| - 1;
      Errors(visits[..n]) + (if visits[n].Crashed? then [visits[n].message] else [])
  }

  lemma EnrichedSnoc(store: Store, people: seq<Row>, visits: seq<Visit>, i: nat)
    requires i < |people| == |visits|
    ensures Enriched(store, people[..i + 1], visits[..i + 1]) ==
      Visited(Enriched(store, people[..i], visits[..i]), people[i], visits[i])
    ensures Errors(visits[..i + 1]) ==
      Errors(visits[..i]) + (if visits[i].Crashed? then [visits[i].message] else [])
  {
    assert people[..i + 1][..i] == people[..i];
    assert visits[..i + 1][..i] == visits[..i];
  }

  datatype RunOutcome = UpToDate | LoginFailed(message: string) | Done(errors: seq<string>)

  /**
   * The columns read from one profile page: the title, company and logo of
   * the first experience entry, the company cut at its first `·`, or the
   * headline when no entry is visible; each trimmed, blank giving null.
   */
  method ReadProfile(person: Row, photo: Option<string>, firstExperience: Option<Experience>,
                     headline: Option<string>) returns (e: Enrichment)
    ensures e == Update(person, photo, firstExperience, headline)
  {
    var jobTitle: Option<string> := None;
    var companyName: Option<string> := None;
    var companyLogo: Option<string> := None;
    if firstExperience.Some? {
      jobTitle := firstExperience.value.title;
      companyName := firstExperience.value.company;
      companyLogo := firstExperience.value.logo;
      if companyName.Some? && companyName.value != "" {
        companyName := Some(Trim(BeforeFirst(companyName.value, '·')));
      }
    } else {
      jobTitle := headline;
    }
    e := Enrichment(if OrNull(photo).Some? then photo else person.avatarUrl,
                    OrNull(TrimOpt(jobTitle)), OrNull(TrimOpt(companyName)), OrNull(companyLogo));
  }

  /**
   * `enrichProfiles`: fetch the pending rows (a failed query reads as no
   * rows) and stop when there are none; otherwise launch the browser, log
   * in, and visit each person in turn, a visit that throws being reported
   * and the loop going on with the next person. The browser is closed
   * whether the login and the loop end normally or not.
   */
  method EnrichRun(store: Store, table: Option<seq<Row>>, loginError: Option<string>, visits: seq<Visit>)
      returns (store': Store, outcome: RunOutcome, launched: bool, closed: bool)
    requires table.Some? ==> ListsRows(store, table.value) && |visits| == |Selection(table.value)|
    ensures launched <==> table.Some? && Selection(table.value) != []
    ensures closed == launched
    ensures !launched ==> outcome == UpToDate && store' == store
    ensures launched && loginError.Some? ==> outcome == LoginFailed(loginError.value) && store' == store
    ensures launched && loginError.None? ==>
      store' == Enriched(store, Selection(table.value), visits) && outcome == Done(Errors(visits))
    ensures store'.Keys == store.Keys
    ensures forall k :: k in store && !Pending(store[k]) ==> store'[k] == store[k]
  {
    store', launched, closed := store, false, false;
    if table.None? || Selection(table.value) == [] {
      return store', UpToDate, launched, closed;
    }
    var alumni := Selection(table.value);
    launched := true;
    if loginError.Some? {
      closed := true;
      return store', LoginFailed(loginError.value), launched, closed;
    }
    var errors: seq<string> := [];
    var i := 0;
    while i < |alumni|
      invariant 0 <= i <= |alumni|
      invariant store' == Enriched(store, alumni[..i], visits[..i])
      invariant errors == Errors(visits[..i])
    {
      var person := alumni[i];
      EnrichedSnoc(store, alumni, visits, i);
      ghost var before := store';
      match visits[i] {
        case Crashed(message) =>
          errors := errors + [message];
        case Profile(photo, firstExperience, headline, stored) =>
          var e := ReadProfile(person, photo, firstExperience, headline);
          if stored {
            store' := UpdateRow(store', person.linkedinUrl, e);
          }
      }
      assert store' == Visited(before, person, visits[i]);
      i := i + 1;
    }
    assert alumni[..i] == alumni && visits[..i] == visits;
    EnrichedOnlyPending(store, table.value, visits);
    closed := true;
    outcome := Done(errors);
  }

  // ---------------------------------------------------------------------
  // What an update says

  /** The stored avatar survives a visit that found no photo; a photo found replaces it. */
  lemma UpdateAvatar(person: Row, photo: Option<string>, firstExperience: Option<Experience>, headline: Option<string>)
    ensures Update(person, photo, firstExperience, headline).avatarUrl ==
      if photo.Some? && photo.value != "" then photo else person.avatarUrl
  {
  }

  /**
   * With an experience entry, the company is the text before the first `·`,
   * trimmed, null when that is blank or nothing was read; it never holds a
   * `·`. The job title is the entry's title, trimmed, null when blank.
   */
  lemma UpdateFromExperience(person: Row, photo: Option<string>, x: Experience, headline: Option<string>)
    ensures var e := Update(person, photo, Some(x), headline);
      e.currentCompany ==
        (if x.company.Some? && Trim(BeforeFirst(x.company.value, '·')) != "" then Some(Trim(BeforeFirst(x.company.value, '·')))
         else None) &&
      (e.currentCompany.Some? ==> '·' !in e.currentCompany.value) &&
      e.currentJobTitle == (if x.title.Some? && Trim(x.title.value) != "" then Some(Trim(x.title.value)) else None) &&
      e.companyLogo == (if x.logo.Some? && x.logo.value != "" then x.logo else None)
  {
    var e := Update(person, photo, Some(x), headline);
    assert e.currentCompany == OrNull(TrimOpt(CompanyName(x.company)));
    if x.company.Some? && x.company.value != "" {
      var c := BeforeFirst(x.company.value, '·');
      TrimIdempotent(c);
      TrimIsSlice(c, '·');
      assert TrimOpt(CompanyName(x.company)) == Some(Trim(c));
    } else if x.company.Some? {
      assert BeforeFirst(x.company.value, '·') == "";
      assert TrimOpt(CompanyName(x.company)) == Some(Trim(""));
    }
  }

  /** Without a visible experience entry the headline is the job title, and company and logo are null. */
  lemma UpdateFromHeadline(person: Row, photo: Option<string>, headline: Option<string>)
    ensures var e := Update(person, photo, None, headline);
      e.currentJobTitle == (if headline.Some? && Trim(headline.value) != "" then Some(Trim(headline.value)) else None) &&
      e.currentCompany.None? && e.companyLogo.None?
  {
  }

  // ---------------------------------------------------------------------
  // What a run does to the table

  /** `b` is `a` with at most the four enrichment columns changed. */
  predicate OnlyEnrichmentChanged(a: Row, b: Row) {
    b == a.(avatarUrl := b.avatarUrl, currentJobTitle := b.currentJobTitle,
            currentCompany := b.currentCompany, companyLogo := b.companyLogo)
  }

  /**
   * A run adds no row and removes none, and in every row it changes only
   * the avatar, job title, company and logo: names, URL, degree, years and
   * email stay as they were.
   */
  lemma {:induction false} EnrichedFrame(store: Store, people: seq<Row>, visits: seq<Visit>)
    requires |people| == |visits|
    ensures Enriched(store, people, visits).Keys == store.Keys
    ensures forall k :: k in store ==> OnlyEnrichmentChanged(store[k], Enriched(store, people, visits)[k])
    decreases |people|
  {
    if people != [] {
      var n := |people| - 1;
      EnrichedFrame(store, people[..n], visits[..n]);
    }
  }

  /** A row no visited person points to is left exactly as it was. */
  lemma {:induction false} EnrichedUntouched(store: Store, people: seq<Row>, visits: seq<Visit>, k: string)
    requires |people| == |visits|
    requires k in store
    requires forall p :: p in people ==> p.linkedinUrl != k
    ensures k in Enriched(store, people, visits) && Enriched(store, people, visits)[k] == store[k]
    decreases |people|
  {
    if people != [] {
      var n := |people| - 1;
      assert forall p :: p in people[..n] ==> p in people;
      EnrichedUntouched(store, people[..n], visits[..n], k);
      EnrichedFrame(store, people[..n], visits[..n]);
    }
  }

  /**
   * A stored update is what the row shows at the end unless a later person
   * has the same row: a visit that threw, before or after, does not keep it
   * from being written.
   */
  lemma {:induction false} EnrichedLastWins(store: Store, people: seq<Row>, visits: seq<Visit>, j: nat)
    requires j < |people| == |visits|
    requires visits[j].Profile? && visits[j].stored
    requires people[j].linkedinUrl in store
    requires forall i :: j < i < |people| ==> people[i].linkedinUrl != people[j].linkedinUrl
    ensures var k := people[j].linkedinUrl;
      var e := Update(people[j], visits[j].photo, visits[j].firstExperience, visits[j].headline);
      k in Enriched(store, people, visits) &&
      Enriched(store, people, visits)[k].avatarUrl == e.avatarUrl &&
      Enriched(store, people, visits)[k].currentJobTitle == e.currentJobTitle &&
      Enriched(store, people, visits)[k].currentCompany == e.currentCompany &&
      Enriched(store, people, visits)[k].companyLogo == e.companyLogo
    decreases |people|
  {
    var n := |people| - 1;
    EnrichedFrame(store, people[..n], visits[..n]);
    if j < n {
      EnrichedLastWins(store, people[..n], visits[..n], j);
    }
  }

  /**
   * The run never writes `degree`, so the rows the progress figures count
   * as processed are the same before and after it, and so are the figures.
   */
  lemma EnrichedKeepsProgress(store: Store, people: seq<Row>, visits: seq<Visit>)
    requires |people| == |visits|
    ensures ProcessedKeys(Enriched(store, people, visits)) == ProcessedKeys(store)
    ensures EnrichmentProgress(Enriched(store, people, visits)) == EnrichmentProgress(store)
  {
    var s := Enriched(store, people, visits);
    EnrichedFrame(store, people, visits);
    assert forall k :: k in store ==> s[k].degree == store[k].degree;
    assert ProcessedKeys(s) == ProcessedKeys(store);
  }

  /** A run over the store's own rows leaves every row that was not pending as it was. */
  lemma EnrichedOnlyPending(store: Store, table: seq<Row>, visits: seq<Visit>)
    requires ListsRows(store, table) && |visits| == |Selection(table)|
    ensures Enriched(store, Selection(table), visits).Keys == store.Keys
    ensures forall k :: k in store && !Pending(store[k]) ==> Enriched(store, Selection(table), visits)[k] == store[k]
  {
    var people := Selection(table);
    EnrichedFrame(store, people, visits);
    SelectionOfStore(store, table);
    forall k | k in store && !Pending(store[k])
      ensures Enriched(store, people, visits)[k] == store[k]
    {
      EnrichedUntouched(store, people, visits, k);
    }
  }

  /** One error is reported per visit that threw, and none for the others. */
  lemma {:induction false} ErrorsCount(visits: seq<Visit>)
    ensures |Errors(visits)| == |set i | 0 <= i < |visits| && visits[i].Crashed?|
    decreases |visits|
  {
    if visits != [] {
      var n := |visits| - 1;
      ErrorsCount(visits[..n]);
      var before := set i | 0 <= i < n && visits[..n][i].Crashed?;
      var all := set i | 0 <= i < |visits| && visits[i].Crashed?;
      assert before == set i | 0 <= i < n && visits[i].Crashed?;
      if visits[n].Crashed? {
        assert all == before + {n};
      } else {
        assert all == before;
      }
    }
  }
}
