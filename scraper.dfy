/**
 * The browser extension. Its popup checks the API key and injects the
 * scraper into the LinkedIn alumni search tab; the scraper harvests the
 * profile cards of each results page, posts every new page's batch to the
 * import endpoint, clicks "next" and waits for the results to change, and
 * reports its progress to the popup.
 *
 * The page is abstracted to what the scraper reads from it: the profile
 * links with their cards, the next button, and what the first profile link
 * is at each poll after the click.
 */
module Scraper {
  import opened Wrappers
  import opened Text
  import opened JsNumbers
  import opened AlumniStore
  import opened AlumniSync
  import opened TimeRemaining

  // ---------------------------------------------------------------------
  // Starting a scan (the popup)

  const KEY_MISSING: string := "Erreur : Entrez votre clé."
  /** The page limits of the two buttons: this page only, and "unlimited". */
  const ONE_PAGE: int := 1
  const ALL_PAGES: int := 999

  datatype ScanStart = KeyMissing(status: string) | Injected(apiKey: string, maxPages: int)

  /** `startScan(maxPages)`: a blank key is refused; otherwise the trimmed key is saved and handed to the scraper. */
  function StartScan(keyInput: string, maxPages: int): (r: ScanStart)
    ensures r.KeyMissing? <==> forall i :: 0 <= i < |keyInput| ==> IsSpace(keyInput[i])
    ensures r.KeyMissing? ==> r.status == KEY_MISSING
    ensures r.Injected? ==> r.apiKey == Trim(keyInput) && r.apiKey != [] && r.maxPages == maxPages
  {
    TrimEmptyIffBlank(keyInput);
    var apiKey := Trim(keyInput);
    if apiKey == "" then KeyMissing(KEY_MISSING) else Injected(apiKey, maxPages)
  }

  // ---------------------------------------------------------------------
  // Harvesting one page

  const DEFAULT_DEGREE: string := "Alumni MyDigitalSchool"
  const DEGREE_LIMIT: nat := 150
  const GRAD_YEAR: int := 2024

  /**
   * One `a[href*="/in/"]` link: its resolved `href`, its `innerText`, and
   * the `src` of the first image and the `innerText` of its card, when the
   * card has them.
   */
  datatype Anchor = Anchor(href: string, text: string, image: Option<string>, cardText: Option<string>)

  /** `link.href.split('?')[0]`. */
  function ProfileUrl(a: Anchor): string {
    BeforeFirst(a.href, '?')
  }

  /** `isRealPhoto`: a non-empty source that is neither LinkedIn's placeholder nor an inline GIF. */
  predicate RealPhoto(image: Option<string>) {
    image.Some? && image.value != "" &&
    !Contains(image.value, "ghost-person") && !Contains(image.value, "data:image/gif")
  }

  /** `link.innerText.split('\n')[0].trim()`. */
  function CardName(a: Anchor): string {
    Trim(BeforeFirst(a.text, '\n'))
  }

  predicate AcceptableName(name: string) {
    |name| > 2 && !Contains(name, "LinkedIn") && !Contains(name, "relation")
  }

  /** The test `find` applies to each line of the card. */
  predicate IsJobLine(t: string, name: string) {
    |Trim(t)| > 5 && !Contains(t, name) && !Contains(t, "Se connecter")
  }

  /** The index of the first true flag, or `|flags|` when there is none. */
  function FirstTrue(flags: seq<bool>): (k: nat)
    ensures k <= |flags|
    ensures k < |flags| ==> flags[k]
    ensures forall j :: 0 <= j < k ==> !flags[j]
    decreases |flags|
  {
    if flags == [] || flags[0] then 0 else 1 + FirstTrue(flags[1..])
  }

  /** The index of the first job line, or `|lines|` when there is none: what `find` picks. */
  function FirstJobLine(lines: seq<string>, name: string): (k: nat)
    ensures k <= |lines|
    ensures k < |lines| ==> IsJobLine(lines[k], name)
    ensures forall j :: 0 <= j < k ==> !IsJobLine(lines[j], name)
  {
    var flags := seq(|lines|, i requires 0 <= i < |lines| => IsJobLine(lines[i], name));
    assert forall j :: 0 <= j < |lines| ==> flags[j] == IsJobLine(lines[j], name);
    FirstTrue(flags)
  }

  /** The job line of the card, or the school's default when none qualifies (or the card has no text). */
  function Job(a: Anchor, name: string): string {
    if a.cardText.None? then DEFAULT_DEGREE
    else
      var lines := SplitOn(a.cardText.value, '\n');
      var k := FirstJobLine(lines, name);
      if k < |lines| then lines[k] else DEFAULT_DEGREE
  }

  /** `job.trim().substring(0, 150)`. */
  function Degree(a: Anchor): string {
    Take(Trim(Job(a, CardName(a))), DEGREE_LIMIT)
  }

  /** What makes an anchor a profile to keep, apart from its URL having been seen. */
  predicate Acceptable(a: Anchor) {
    !Contains(ProfileUrl(a), "/company/") && RealPhoto(a.image) && AcceptableName(CardName(a))
  }

  /** The object pushed for an accepted anchor: no entry year and no email. */
  function Record(a: Anchor): AlumniData {
    AlumniData(CardName(a), ProfileUrl(a), a.image, Some(Degree(a)), Undefined, Number(GRAD_YEAR), None)
  }

  /**
   * The links the `forEach` keeps, in order: each one whose URL is not yet
   * in `seen` and that passes `keep`; only a kept link's URL joins `seen`.
   */
  function Kept(anchors: seq<Anchor>, seen: set<string>, keep: Anchor -> bool): seq<Anchor>
    decreases |anchors|
  {
    if anchors == [] then []
    else
      var a := anchors[0];
      if ProfileUrl(a) !in seen && keep(a) then [a] + Kept(anchors[1..], seen + {ProfileUrl(a)}, keep)
      else Kept(anchors[1..], seen, keep)
  }

  /** The records `make` builds for the kept links, in order. */
  function Records(kept: seq<Anchor>, make: Anchor -> AlumniData): (batch: seq<AlumniData>)
    ensures |batch| == |kept|
    ensures forall i :: 0 <= i < |kept| ==> batch[i] == make(kept[i])
  {
    if kept == [] then [] else [make(kept[0])] + Records(kept[1..], make)
  }

  /** The batch a page yields: the records of the links kept, in page order. */
  function Harvest(anchors: seq<Anchor>): seq<AlumniData> {
    Records(Kept(anchors, {}, Acceptable), Record)
  }

  /** The page's batch, built as the callback does: a URL is marked seen only once its link is kept. */
  method ExtractPage(anchors: seq<Anchor>) returns (batch: seq<AlumniData>)
    ensures batch == Harvest(anchors)
  {
    batch := [];
    var seen: set<string> := {};
    assert anchors[0..] == anchors;
    assert batch + Harvest(anchors) == Harvest(anchors);
    for i := 0 to |anchors|
      invariant batch + Records(Kept(anchors[i..], seen, Acceptable), Record) == Harvest(anchors)
    {
      var link := anchors[i];
      assert anchors[i..][0] == link && anchors[i..][1..] == anchors[i + 1..];
      var url := BeforeFirst(link.href, '?');
      if url in seen || Contains(url, "/company/") {
        assert Kept(anchors[i..], seen, Acceptable) == Kept(anchors[i + 1..], seen, Acceptable);
        continue;
      }
      if !RealPhoto(link.image) {
        assert Kept(anchors[i..], seen, Acceptable) == Kept(anchors[i + 1..], seen, Acceptable);
        continue;
      }
      var name := Trim(BeforeFirst(link.text, '\n'));
      if |name| > 2 && !Contains(name, "LinkedIn") && !Contains(name, "relation") {
        var job := Job(link, name);
        var item := AlumniData(name, url, link.image, Some(Take(Trim(job), DEGREE_LIMIT)), Undefined, Number(GRAD_YEAR), None);
        assert item == Record(link);
        ghost var rest := Kept(anchors[i + 1..], seen + {url}, Acceptable);
        assert Kept(anchors[i..], seen, Acceptable) == [link] + rest;
        assert ([link] + rest)[0] == link && ([link] + rest)[1..] == rest;
        assert Records([link] + rest, Record) == [item] + Records(rest, Record);
        ConcatAssoc(batch, [item], Records(rest, Record));
        batch := batch + [item];
        seen := seen + {url};
      } else {
        assert Kept(anchors[i..], seen, Acceptable) == Kept(anchors[i + 1..], seen, Acceptable);
      }
    }
    assert anchors[|anchors|..] == [];
    assert batch + [] == batch;
  }

  /** The URLs of a batch, in order. */
  function Urls(batch: seq<AlumniData>): (us: seq<string>)
    ensures |us| == |batch|
    ensures forall i :: 0 <= i < |batch| ==> us[i] == batch[i].linkedinUrl
  {
    if batch == [] then [] else [batch[0].linkedinUrl] + Urls(batch[1..])
  }

  /** A kept link comes from the page, passes the test and was not seen before. */
  lemma {:induction false} KeptSound(anchors: seq<Anchor>, seen: set<string>, keep: Anchor -> bool)
    ensures forall x :: x in Kept(anchors, seen, keep) ==> x in anchors && keep(x) && ProfileUrl(x) !in seen
    decreases |anchors|
  {
    if anchors != [] {
      var a := anchors[0];
      var rest := anchors[1..];
      assert forall b :: b in rest ==> b in anchors;
      if ProfileUrl(a) !in seen && keep(a) {
        KeptSound(rest, seen + {ProfileUrl(a)}, keep);
      } else {
        KeptSound(rest, seen, keep);
      }
    }
  }

  lemma {:induction false} KeptDistinct(anchors: seq<Anchor>, seen: set<string>, keep: Anchor -> bool)
    ensures forall i, j :: 0 <= i < j < |Kept(anchors, seen, keep)| ==>
      ProfileUrl(Kept(anchors, seen, keep)[i]) != ProfileUrl(Kept(anchors, seen, keep)[j])
    decreases |anchors|
  {
    if anchors != [] {
      var a := anchors[0];
      var rest := anchors[1..];
      if ProfileUrl(a) !in seen && keep(a) {
        var seen' := seen + {ProfileUrl(a)};
        KeptDistinct(rest, seen', keep);
        KeptSound(rest, seen', keep);
        var tail := Kept(rest, seen', keep);
        assert forall j :: 0 <= j < |tail| ==> tail[j] in tail;
      } else {
        KeptDistinct(rest, seen, keep);
        assert Kept(anchors, seen, keep) == Kept(rest, seen, keep);
      }
    }
  }

  lemma {:induction false} KeptComplete(anchors: seq<Anchor>, seen: set<string>, keep: Anchor -> bool)
    ensures forall a :: a in anchors && keep(a) ==>
      ProfileUrl(a) in seen || exists x :: x in Kept(anchors, seen, keep) && ProfileUrl(x) == ProfileUrl(a)
    decreases |anchors|
  {
    if anchors != [] {
      var a := anchors[0];
      var rest := anchors[1..];
      assert forall b :: b in anchors ==> b == a || b in rest;
      if ProfileUrl(a) !in seen && keep(a) {
        var seen' := seen + {ProfileUrl(a)};
        KeptComplete(rest, seen', keep);
        assert a in Kept(anchors, seen, keep);
      } else {
        KeptComplete(rest, seen, keep);
      }
    }
  }

  lemma {:induction false} KeptFirstWins(anchors: seq<Anchor>, seen: set<string>, keep: Anchor -> bool, k: nat)
    requires k < |anchors| && keep(anchors[k]) && ProfileUrl(anchors[k]) !in seen
    requires forall j :: 0 <= j < k && keep(anchors[j]) ==> ProfileUrl(anchors[j]) != ProfileUrl(anchors[k])
    ensures anchors[k] in Kept(anchors, seen, keep)
    decreases k
  {
    var a := anchors[0];
    var rest := anchors[1..];
    if k > 0 {
      assert forall j :: 0 <= j < k - 1 ==> rest[j] == anchors[j + 1];
      if ProfileUrl(a) !in seen && keep(a) {
        KeptFirstWins(rest, seen + {ProfileUrl(a)}, keep, k - 1);
      } else {
        KeptFirstWins(rest, seen, keep, k - 1);
      }
    }
  }

  /** Every harvested record is the record of an acceptable link of the page. */
  lemma HarvestSound(anchors: seq<Anchor>)
    ensures forall r :: r in Harvest(anchors) ==> exists a :: a in anchors && Acceptable(a) && r == Record(a)
  {
    var kept := Kept(anchors, {}, Acceptable);
    KeptSound(anchors, {}, Acceptable);
    forall r | r in Harvest(anchors)
      ensures exists a :: a in anchors && Acceptable(a) && r == Record(a)
    {
      var i :| 0 <= i < |kept| && r == Records(kept, Record)[i];
      assert kept[i] in kept;
    }
  }

  /** Within one page no profile URL is emitted twice. */
  lemma HarvestDistinct(anchors: seq<Anchor>)
    ensures forall i, j :: 0 <= i < j < |Harvest(anchors)| ==>
      Harvest(anchors)[i].linkedinUrl != Harvest(anchors)[j].linkedinUrl
  {
    var kept := Kept(anchors, {}, Acceptable);
    var batch := Harvest(anchors);
    KeptDistinct(anchors, {}, Acceptable);
    forall i, j | 0 <= i < j < |batch|
      ensures batch[i].linkedinUrl != batch[j].linkedinUrl
    {
      assert batch[i] == Record(kept[i]) && batch[j] == Record(kept[j]);
    }
  }

  /** Every acceptable link's URL is emitted. */
  lemma HarvestComplete(anchors: seq<Anchor>)
    ensures forall a :: a in anchors && Acceptable(a) ==> ProfileUrl(a) in Urls(Harvest(anchors))
  {
    forall a | a in anchors && Acceptable(a)
      ensures ProfileUrl(a) in Urls(Harvest(anchors))
    {
      HarvestHas(anchors, a);
    }
  }

  /** One acceptable link's URL is in the batch. */
  lemma HarvestHas(anchors: seq<Anchor>, a: Anchor)
    requires a in anchors && Acceptable(a)
    ensures ProfileUrl(a) in Urls(Harvest(anchors))
  {
    var kept := Kept(anchors, {}, Acceptable);
    KeptComplete(anchors, {}, Acceptable);
    var x :| x in kept && ProfileUrl(x) == ProfileUrl(a);
    var i :| 0 <= i < |kept| && kept[i] == x;
    HarvestUrls(anchors);
    var us := Urls(Harvest(anchors));
    assert us[i] == ProfileUrl(a);
  }

  /** The URLs of a page's batch are those of its kept links, position by position. */
  lemma HarvestUrls(anchors: seq<Anchor>)
    ensures |Urls(Harvest(anchors))| == |Kept(anchors, {}, Acceptable)|
    ensures forall i :: 0 <= i < |Kept(anchors, {}, Acceptable)| ==>
      Urls(Harvest(anchors))[i] == ProfileUrl(Kept(anchors, {}, Acceptable)[i])
  {
    var kept := Kept(anchors, {}, Acceptable);
    var batch := Records(kept, Record);
    assert Harvest(anchors) == batch;
    forall i | 0 <= i < |kept| ensures Urls(batch)[i] == ProfileUrl(kept[i]) {
      assert batch[i] == Record(kept[i]);
    }
  }

  /**
   * For each URL the record emitted is the one of the first acceptable link
   * carrying it: a link turned down (no photo, a bad name) does not claim
   * its URL, and a later duplicate does not replace the first.
   */
  lemma HarvestFirstWins(anchors: seq<Anchor>, k: nat)
    requires k < |anchors| && Acceptable(anchors[k])
    requires forall j :: 0 <= j < k && Acceptable(anchors[j]) ==> ProfileUrl(anchors[j]) != ProfileUrl(anchors[k])
    ensures Record(anchors[k]) in Harvest(anchors)
  {
    var kept := Kept(anchors, {}, Acceptable);
    KeptFirstWins(anchors, {}, Acceptable, k);
    var i :| 0 <= i < |kept| && kept[i] == anchors[k];
    assert Harvest(anchors)[i] == Record(anchors[k]);
  }

  lemma RecordUrl(a: Anchor)
    ensures Record(a).linkedinUrl == ProfileUrl(a)
  {
  }

  /** What every harvested record looks like. */
  lemma HarvestShape(anchors: seq<Anchor>)
    ensures forall r :: r in Harvest(anchors) ==>
      '?' !in r.linkedinUrl && !Contains(r.linkedinUrl, "/company/") &&
      AcceptableName(r.fullName) && RealPhoto(r.profileImageUrl) &&
      r.degree.Some? && 5 < |r.degree.value| <= DEGREE_LIMIT &&
      r.gradYear == Number(GRAD_YEAR) && r.entryYear == Undefined && r.email == None
  {
    HarvestSound(anchors);
    forall a | Acceptable(a)
      ensures 5 < |Degree(a)|
    {
      DegreeNotEmpty(a);
    }
  }

  /** The degree is never empty: a job line has more than five characters once trimmed, and so has the default. */
  lemma DegreeNotEmpty(a: Anchor)
    ensures |Degree(a)| > 5
  {
    var job := Job(a, CardName(a));
    if job == DEFAULT_DEGREE {
      assert |Trim(DEFAULT_DEGREE)| > 5 by {
        TrimDefaultDegree();
      }
    }
  }

  lemma TrimDefaultDegree()
    ensures Trim(DEFAULT_DEGREE) == DEFAULT_DEGREE
  {
    var s := DEFAULT_DEGREE;
    assert !IsSpace(s[0]) && !IsSpace(s[|s| - 1]);
  }

  /**
   * The sink stores a harvested record's degree as it is (it is never the
   * empty string that would make it fall back to `Non spécifié`), with the
   * card's photo and the year 2024.
   */
  lemma HarvestedRowKeepsDegree(a: Anchor)
    requires Acceptable(a)
    ensures ToProfileWrite(Record(a)).degree == Degree(a)
    ensures ToProfileWrite(Record(a)).avatarUrl == a.image
    ensures ToProfileWrite(Record(a)).gradYear == Some(GRAD_YEAR)
    ensures ToProfileWrite(Record(a)).linkedinUrl == ProfileUrl(a)
  {
    DegreeNotEmpty(a);
  }

  // ---------------------------------------------------------------------
  // Pages, polling and the scan

  const MAX_POLLS: nat := 15
  const DEFAULT_RESULTS_TEXT: string := "100"
  const DEFAULT_PAGES: int := 10

  datatype NextButton = NoButton | Disabled | Enabled

  /**
   * A results page: its profile links, its next button, the `href` of the
   * first profile link (if any) at each one-second poll after a click on
   * next, and whether the request posting the page's batch to the import
   * endpoint rejects (the server unreachable, a network error) should the
   * page's batch be posted.
   */
  datatype PageView = PageView(anchors: seq<Anchor>, next: NextButton, afterClick: seq<Option<string>>, postRejects: bool)

  /** Page `p` (from 1) of the search; past the pages given, an empty page without a next button. */
  function View(pages: seq<PageView>, p: int): PageView {
    if 1 <= p <= |pages| then pages[p - 1] else PageView([], NoButton, [], false)
  }

  /** The first profile link at poll `k`; none once the observations run out. */
  function Observed(afterClick: seq<Option<string>>, k: nat): Option<string> {
    if k < |afterClick| then afterClick[k] else None
  }

  /** The poll's test: a first link whose URL differs from the last posted batch's first URL. */
  predicate Moved(link: Option<string>, lastFirst: string) {
    link.Some? && BeforeFirst(link.value, '?') != lastFirst
  }

  predicate PageChanges(afterClick: seq<Option<string>>, lastFirst: string) {
    exists k :: 0 <= k < MAX_POLLS && Moved(Observed(afterClick, k), lastFirst)
  }

  /** The `while (attempts < 15)` loop after the click: it stops at the first poll that sees a change. */
  method PollForChange(afterClick: seq<Option<string>>, lastFirst: string) returns (changed: bool, attempts: nat)
    ensures changed <==> PageChanges(afterClick, lastFirst)
    ensures changed ==> attempts < MAX_POLLS && Moved(Observed(afterClick, attempts), lastFirst)
    ensures !changed ==> attempts == MAX_POLLS
    ensures forall k :: 0 <= k < attempts ==> !Moved(Observed(afterClick, k), lastFirst)
  {
    attempts := 0;
    changed := false;
    while attempts < MAX_POLLS
      invariant attempts <= MAX_POLLS
      invariant forall k :: 0 <= k < attempts ==> !Moved(Observed(afterClick, k), lastFirst)
    {
      var firstLink := Observed(afterClick, attempts);
      if firstLink.Some? && BeforeFirst(firstLink.value, '?') != lastFirst {
        changed := true;
        break;
      }
      attempts := attempts + 1;
    }
  }

  /** `text.replace(/\D/g, '')`. */
  function DigitsOnly(s: string): (ds: string)
    ensures AllDigits(ds)
    ensures forall c :: c in s && IsDigit(c) ==> c in ds
    decreases |s|
  {
    if s == [] then []
    else (if IsDigit(s[0]) then [s[0]] else []) + DigitsOnly(s[1..])
  }

  /**
   * The digits are kept in order and as often as they occur: those of
   * `a + b` are the digits of `a` followed by those of `b`, and a single
   * character is kept exactly when it is a digit. Together these make the
   * result the text's subsequence of digits.
   */
  lemma {:induction false} DigitsOnlyConcat(a: string, b: string)
    ensures DigitsOnly(a + b) == DigitsOnly(a) + DigitsOnly(b)
    ensures |a| == 1 ==> DigitsOnly(a) == if IsDigit(a[0]) then a else []
    decreases |a|
  {
    if a == [] {
      assert a + b == b;
    } else {
      assert (a + b)[0] == a[0] && (a + b)[1..] == a[1..] + b;
      DigitsOnlyConcat(a[1..], b);
      var head := if IsDigit(a[0]) then [a[0]] else [];
      ConcatAssoc(head, DigitsOnly(a[1..]), DigitsOnly(b));
      if |a| == 1 {
        assert a[1..] == [];
      }
    }
  }

  /** `Math.ceil(v / 10)` on an integer. */
  function CeilTenth(v: int): (q: int)
    ensures 10 * q - 10 < v <= 10 * q
  {
    -((-v) / 10)
  }

  /** `parseInt` of a digit string: its decimal value, or `NaN` when there is no digit. */
  lemma ParseIntOfDigitsOnly(ds: string)
    requires AllDigits(ds)
    ensures ParseInt(ds) == if ds == [] then None else Some(Value(ds, 10))
  {
    if ds == [] {
      ParseIntNoDigit(ds);
    } else {
      ParseIntOfDigits(ds);
    }
  }

  /**
   * `totalEstimatedPages`: the results count shown on the page (or `100`
   * when there is none) divided by ten and rounded up, ten when that is
   * `NaN` or zero, and never more than the scan's page limit.
   */
  function EstimatedPages(resultsText: Option<string>, maxPages: int): (r: int)
    ensures r <= maxPages
    ensures maxPages >= 1 ==> r >= 1
  {
    var text := if resultsText.Some? && resultsText.value != "" then resultsText.value else DEFAULT_RESULTS_TEXT;
    var ds := DigitsOnly(text);
    ParseIntOfDigitsOnly(ds);
    var quotient := match ParseInt(ds) case None => 0 case Some(v) => CeilTenth(v);
    var estimate := if quotient == 0 then DEFAULT_PAGES else quotient;
    if estimate < maxPages then estimate else maxPages
  }

  /** A shown count of `v > 0` results gives `ceil(v / 10)` pages, up to the limit. */
  lemma EstimatedPagesOfCount(text: string, maxPages: int)
    requires text != "" && DigitsOnly(text) != []
    requires Value(DigitsOnly(text), 10) > 0
    ensures var v := Value(DigitsOnly(text), 10);
      var q := EstimatedPages(Some(text), maxPages);
      (q == maxPages && maxPages <= CeilTenth(v)) || (q == CeilTenth(v) && q < maxPages)
  {
    ParseIntOfDigits(DigitsOnly(text));
  }

  /** A count of zero, or text without any digit, falls back to ten pages before the limit. */
  lemma EstimatedPagesFallback(text: string, maxPages: int)
    requires text != ""
    requires DigitsOnly(text) == [] || Value(DigitsOnly(text), 10) == 0
    ensures EstimatedPages(Some(text), maxPages) == if DEFAULT_PAGES < maxPages then DEFAULT_PAGES else maxPages
  {
    ParseIntOfDigitsOnly(DigitsOnly(text));
  }

  /** The fallback text is its own digit string and reads as 100. */
  lemma DefaultResultsText()
    ensures DigitsOnly(DEFAULT_RESULTS_TEXT) == DEFAULT_RESULTS_TEXT
    ensures ParseInt(DEFAULT_RESULTS_TEXT) == Some(100)
  {
    var ds := DEFAULT_RESULTS_TEXT;
    assert DigitsOnly(ds) == ds by {
      assert ds[1..] == "00" && ds[1..][1..] == "0" && ds[1..][1..][1..] == "";
    }
    assert Value(ds, 10) == 100 by {
      assert "1"[..0] == "" && Value("1", 10) == 1;
      assert "10"[..1] == "1" && Value("10", 10) == 10;
      assert ds[..2] == "10";
    }
    ParseIntOfDigits(ds);
  }

  /** No count on the page reads as `100` results: ten pages at most. */
  lemma EstimatedPagesMissing(resultsText: Option<string>, maxPages: int)
    requires resultsText.None? || resultsText == Some("")
    ensures EstimatedPages(resultsText, maxPages) == if DEFAULT_PAGES < maxPages then DEFAULT_PAGES else maxPages
  {
    DefaultResultsText();
    assert CeilTenth(100) == 10;
  }

  /** What the scraper sends to the popup. */
  datatype Message = Progress(page: int, totalEstimated: int, alumniFound: nat) | Finished

  /** The batch page `p` yields. */
  function PageBatch(pages: seq<PageView>, p: int): seq<AlumniData> {
    Harvest(View(pages, p).anchors)
  }

  /** The batches of pages `1..n`. */
  function Batches(pages: seq<PageView>, n: nat): (bs: seq<seq<AlumniData>>)
    ensures |bs| == n
  {
    if n == 0 then [] else Batches(pages, n - 1) + [PageBatch(pages, n)]
  }

  /** `lastFirstProfileUrl` after the given posts: the first URL of the last one, initially empty. */
  function LastFirst(posts: seq<seq<AlumniData>>): string {
    if posts == [] || posts[|posts| - 1] == [] then "" else posts[|posts| - 1][0].linkedinUrl
  }

  /** The batches that get posted: each non-empty batch whose first URL differs from the last posted one's. */
  function Posted(batches: seq<seq<AlumniData>>): seq<seq<AlumniData>>
    decreases |batches|
  {
    if batches == [] then []
    else
      var prev := Posted(batches[..|batches| - 1]);
      var b := batches[|batches| - 1];
      if b != [] && b[0].linkedinUrl != LastFirst(prev) then prev + [b] else prev
  }

  lemma PostedSnoc(batches: seq<seq<AlumniData>>, b: seq<AlumniData>)
    ensures Posted(batches + [b]) ==
      if b != [] && b[0].linkedinUrl != LastFirst(Posted(batches)) then Posted(batches) + [b]
      else Posted(batches)
  {
    assert (batches + [b])[..|batches|] == batches;
  }

  /** The number of profiles in the given posts. */
  function Found(posts: seq<seq<AlumniData>>): nat {
    if posts == [] then 0 else Found(posts[..|posts| - 1]) + |posts[|posts| - 1]|
  }

  lemma FoundSnoc(posts: seq<seq<AlumniData>>, b: seq<AlumniData>)
    ensures Found(posts + [b]) == Found(posts) + |b|
  {
    assert (posts + [b])[..|posts|] == posts;
  }

  /**
   * The posted batches are batches of the scan, none is empty, none starts
   * with the URL the previous one started with, and the first does not
   * start with the empty URL the scraper begins from.
   */
  lemma {:induction false} PostedFacts(batches: seq<seq<AlumniData>>)
    ensures forall i :: 0 <= i < |Posted(batches)| ==> Posted(batches)[i] != [] && Posted(batches)[i] in batches
    ensures forall i :: 0 < i < |Posted(batches)| ==>
      Posted(batches)[i][0].linkedinUrl != Posted(batches)[i - 1][0].linkedinUrl
    ensures |Posted(batches)| > 0 ==> Posted(batches)[0][0].linkedinUrl != ""
    decreases |batches|
  {
    if batches != [] {
      var init := batches[..|batches| - 1];
      var b := batches[|batches| - 1];
      PostedFacts(init);
      assert forall x :: x in init ==> x in batches;
    }
  }

  /**
   * The progress messages match the posts one for one: each names a page
   * (below `limit`, in increasing order) that posted, whose batch is the
   * post, the estimate, and the running total of profiles posted so far.
   */
  predicate Reported(messages: seq<Message>, posts: seq<seq<AlumniData>>, pages: seq<PageView>,
                     totalEstimated: int, limit: int)
  {
    |messages| == |posts| &&
    (forall i {:trigger messages[i]} :: 0 <= i < |posts| ==>
      messages[i].Progress? && 1 <= messages[i].page < limit &&
      PostsAt(pages, messages[i].page) && posts[i] == PageBatch(pages, messages[i].page) &&
      messages[i].totalEstimated == totalEstimated &&
      messages[i].alumniFound == Found(posts[..i + 1])) &&
    (forall i, j :: 0 <= i < j < |posts| ==> messages[i].page < messages[j].page)
  }

  lemma ReportedStep(messages: seq<Message>, posts: seq<seq<AlumniData>>, pages: seq<PageView>,
                     totalEstimated: int, page: int, batch: seq<AlumniData>, found: nat)
    requires Reported(messages, posts, pages, totalEstimated, page) && 1 <= page
    requires batch == PageBatch(pages, page) && PostsAt(pages, page)
    requires found == Found(posts) + |batch|
    ensures Reported(messages + [Progress(page, totalEstimated, found)], posts + [batch],
                     pages, totalEstimated, page + 1)
  {
    var messages' := messages + [Progress(page, totalEstimated, found)];
    var posts' := posts + [batch];
    ReportedEntriesStep(messages, posts, pages, totalEstimated, page, batch, found, messages', posts');
    PagesOrderSnoc(messages, Progress(page, totalEstimated, found));
  }

  /** The new progress message reports the new batch, and the earlier ones still report theirs. */
  lemma ReportedEntriesStep(messages: seq<Message>, posts: seq<seq<AlumniData>>, pages: seq<PageView>,
                            totalEstimated: int, page: int, batch: seq<AlumniData>, found: nat,
                            messages': seq<Message>, posts': seq<seq<AlumniData>>)
    requires Reported(messages, posts, pages, totalEstimated, page) && 1 <= page
    requires batch == PageBatch(pages, page) && PostsAt(pages, page)
    requires found == Found(posts) + |batch|
    requires messages' == messages + [Progress(page, totalEstimated, found)] && posts' == posts + [batch]
    ensures forall i :: 0 <= i < |posts'| ==>
      messages'[i].Progress? && 1 <= messages'[i].page < page + 1 &&
      PostsAt(pages, messages'[i].page) && posts'[i] == PageBatch(pages, messages'[i].page) &&
      messages'[i].totalEstimated == totalEstimated &&
      messages'[i].alumniFound == Found(posts'[..i + 1])
  {
    forall i | 0 <= i < |posts'|
      ensures messages'[i].Progress? && 1 <= messages'[i].page < page + 1
      ensures PostsAt(pages, messages'[i].page) && posts'[i] == PageBatch(pages, messages'[i].page)
      ensures messages'[i].totalEstimated == totalEstimated
      ensures messages'[i].alumniFound == Found(posts'[..i + 1])
    {
      if i < |posts| {
        assert messages'[i] == messages[i] && posts'[i] == posts[i];
        assert posts'[..i + 1] == posts[..i + 1];
      } else {
        assert messages'[i] == Progress(page, totalEstimated, found) && posts'[i] == batch;
        assert posts'[..i + 1] == posts + [batch];
        FoundSnoc(posts, batch);
      }
    }
  }

  /** A message for a page past all the earlier ones keeps the pages in increasing order. */
  lemma PagesOrderSnoc(messages: seq<Message>, m: Message)
    requires m.Progress?
    requires forall i :: 0 <= i < |messages| ==> messages[i].Progress? && messages[i].page < m.page
    requires forall i, j :: 0 <= i < j < |messages| ==> messages[i].page < messages[j].page
    ensures forall i, j :: 0 <= i < j < |messages + [m]| ==> (messages + [m])[i].page < (messages + [m])[j].page
  {
    var messages' := messages + [m];
    forall i, j | 0 <= i < j < |messages'|
      ensures messages'[i].page < messages'[j].page
    {
      assert messages'[i] == messages[i];
      if j < |messages| {
        assert messages'[j] == messages[j];
      }
    }
  }

  /** The message list closed by `Finished` still reports the posts. */
  lemma ReportedFinish(messages: seq<Message>, posts: seq<seq<AlumniData>>, pages: seq<PageView>,
                       totalEstimated: int, limit: int)
    requires Reported(messages, posts, pages, totalEstimated, limit)
    ensures (messages + [Finished])[..|posts|] == messages
    ensures Reported((messages + [Finished])[..|posts|], posts, pages, totalEstimated, limit)
  {
    assert (messages + [Finished])[..|messages|] == messages;
  }

  /** Scanning page `page` extends the posts of the pages before it by the posting rule. */
  lemma PostedStep(pages: seq<PageView>, page: int, posts: seq<seq<AlumniData>>, batch: seq<AlumniData>)
    requires 1 <= page && posts == Posted(Batches(pages, page - 1)) && batch == PageBatch(pages, page)
    ensures Posted(Batches(pages, page)) ==
      if batch != [] && batch[0].linkedinUrl != LastFirst(posts) then posts + [batch] else posts
  {
    assert Batches(pages, page) == Batches(pages, page - 1) + [batch];
    PostedSnoc(Batches(pages, page - 1), batch);
  }

  lemma ReportedRaise(messages: seq<Message>, posts: seq<seq<AlumniData>>, pages: seq<PageView>,
                      totalEstimated: int, limit: int)
    requires Reported(messages, posts, pages, totalEstimated, limit)
    ensures Reported(messages, posts, pages, totalEstimated, limit + 1)
  {
  }

  /**
   * Page `p` posts its batch: the batch is not empty and starts with a URL
   * other than the first URL of the last batch posted before it.
   */
  predicate PostsAt(pages: seq<PageView>, p: int)
    requires p >= 1
  {
    var batch := PageBatch(pages, p);
    batch != [] && batch[0].linkedinUrl != LastFirst(Posted(Batches(pages, p - 1)))
  }

  /** Page `p` ends the scan with a rejection: it posts, and the request posting its batch rejects. */
  predicate Aborts(pages: seq<PageView>, p: int)
    requires p >= 1
  {
    PostsAt(pages, p) && View(pages, p).postRejects
  }

  /**
   * None of the pages `1..n` ended the scan with a rejected post, each had
   * an enabled next button, and the poll after the click saw the results
   * change.
   */
  predicate Followed(pages: seq<PageView>, n: int)
    decreases n
  {
    n < 1 ||
    (Followed(pages, n - 1) && !Aborts(pages, n) && View(pages, n).next == Enabled &&
     PageChanges(View(pages, n).afterClick, LastFirst(Posted(Batches(pages, n)))))
  }

  /**
   * One page of the scan's loop up to the navigation: harvest the page's
   * batch, and when it is non-empty and starts with a new URL, remember its
   * first URL, add its size to the total and post it; when the request
   * rejects, the scan ends there (`aborted`), before any progress report
   * for the page; otherwise the progress is reported.
   */
  method ScanPage(pages: seq<PageView>, page: int, totalEstimated: int,
                  posts: seq<seq<AlumniData>>, messages: seq<Message>, lastFirst: string, totalFound: nat)
      returns (posts': seq<seq<AlumniData>>, messages': seq<Message>, lastFirst': string, totalFound': nat, aborted: bool)
    requires 1 <= page
    requires posts == Posted(Batches(pages, page - 1))
    requires lastFirst == LastFirst(posts) && totalFound == Found(posts)
    requires Reported(messages, posts, pages, totalEstimated, page)
    ensures aborted <==> Aborts(pages, page)
    ensures aborted ==> posts' == posts && messages' == messages
    ensures !aborted ==>
      posts' == Posted(Batches(pages, page)) && lastFirst' == LastFirst(posts') && totalFound' == Found(posts')
    ensures !PostsAt(pages, page) ==> posts' == posts && messages' == messages
    ensures PostsAt(pages, page) && !aborted ==>
      posts' == posts + [PageBatch(pages, page)] &&
      messages' == messages + [Progress(page, totalEstimated, totalFound')]
    ensures Reported(messages', posts', pages, totalEstimated, page + 1)
  {
    var batch := ExtractPage(View(pages, page).anchors);
    assert batch == PageBatch(pages, page);
    PostedStep(pages, page, posts, batch);
    aborted := false;
    if |batch| > 0 && batch[0].linkedinUrl != lastFirst {
      lastFirst' := batch[0].linkedinUrl;
      totalFound' := totalFound + |batch|;
      if View(pages, page).postRejects {
        ReportedRaise(messages, posts, pages, totalEstimated, page);
        posts', messages', aborted := posts, messages, true;
        return;
      }
      ReportedStep(messages, posts, pages, totalEstimated, page, batch, totalFound');
      FoundSnoc(posts, batch);
      posts' := posts + [batch];
      messages' := messages + [Progress(page, totalEstimated, totalFound')];
    } else {
      ReportedRaise(messages, posts, pages, totalEstimated, page);
      posts', messages', lastFirst', totalFound' := posts, messages, lastFirst, totalFound;
    }
  }

  /** A page whose navigation went on extends the followed pages by one. */
  lemma FollowedStep(pages: seq<PageView>, n: int, posts: seq<seq<AlumniData>>)
    requires n >= 1 && Followed(pages, n - 1) && !Aborts(pages, n) && posts == Posted(Batches(pages, n))
    requires View(pages, n).next == Enabled && PageChanges(View(pages, n).afterClick, LastFirst(posts))
    ensures Followed(pages, n)
  {
  }

  /**
   * The navigation after a page: below the page limit, click an enabled next
   * button and poll until the results change; go on exactly when they did.
   */
  method NextPage(view: PageView, page: int, maxPages: int, lastFirst: string) returns (goOn: bool)
    ensures goOn <==> view.next == Enabled && page < maxPages && PageChanges(view.afterClick, lastFirst)
  {
    goOn := false;
    if view.next == Enabled && page < maxPages {
      var changed, _ := PollForChange(view.afterClick, lastFirst);
      goOn := changed;
    }
  }

  /** One turn of the page loop: scan the page, then, unless its post rejected, navigate from it. */
  method VisitPage(pages: seq<PageView>, page: int, maxPages: int, totalEstimated: int,
                   posts: seq<seq<AlumniData>>, messages: seq<Message>, lastFirst: string, totalFound: nat)
      returns (posts': seq<seq<AlumniData>>, messages': seq<Message>, lastFirst': string, totalFound': nat,
               aborted: bool, goOn: bool)
    requires 1 <= page
    requires posts == Posted(Batches(pages, page - 1)) && Followed(pages, page - 1)
    requires lastFirst == LastFirst(posts) && totalFound == Found(posts)
    requires Reported(messages, posts, pages, totalEstimated, page)
    ensures aborted <==> Aborts(pages, page)
    ensures aborted ==> posts' == posts && messages' == messages && !goOn
    ensures !aborted ==>
      posts' == Posted(Batches(pages, page)) && lastFirst' == LastFirst(posts') && totalFound' == Found(posts')
    ensures !PostsAt(pages, page) ==> posts' == posts && messages' == messages
    ensures PostsAt(pages, page) && !aborted ==>
      posts' == posts + [PageBatch(pages, page)] &&
      messages' == messages + [Progress(page, totalEstimated, totalFound')]
    ensures Reported(messages', posts', pages, totalEstimated, page + 1)
    ensures goOn <==>
      !aborted && View(pages, page).next == Enabled && page < maxPages &&
      PageChanges(View(pages, page).afterClick, LastFirst(posts'))
    ensures goOn ==> Followed(pages, page)
  {
    posts', messages', lastFirst', totalFound', aborted :=
      ScanPage(pages, page, totalEstimated, posts, messages, lastFirst, totalFound);
    if aborted {
      return posts', messages', lastFirst', totalFound', aborted, false;
    }
    goOn := NextPage(View(pages, page), page, maxPages, lastFirst');
    if goOn {
      FollowedStep(pages, page, posts');
    }
  }

  /**
   * The page loop of the scan: for each page from the first, harvest and
   * post it as `ScanPage` says, then follow an enabled next button (below
   * the page limit) as long as a poll sees the results change. A rejected
   * post ends the loop at once (`aborted`); `posts` are the batches whose
   * post went through.
   */
  method ScanPages(totalEstimated: int, maxPages: int, pages: seq<PageView>)
      returns (posts: seq<seq<AlumniData>>, messages: seq<Message>, scanned: nat, aborted: bool)
    ensures maxPages < 1 ==> scanned == 0 && !aborted
    ensures maxPages >= 1 ==> 1 <= scanned <= maxPages
    ensures Followed(pages, scanned - 1)
    ensures aborted ==> Aborts(pages, scanned) && posts == Posted(Batches(pages, scanned - 1))
    ensures !aborted ==> posts == Posted(Batches(pages, scanned))
    ensures !aborted && 1 <= scanned < maxPages ==>
      View(pages, scanned).next != Enabled ||
      !PageChanges(View(pages, scanned).afterClick, LastFirst(posts))
    ensures Reported(messages, posts, pages, totalEstimated, scanned + 1)
  {
    var totalFound: nat := 0;
    var lastFirst := "";
    posts, messages, scanned, aborted := [], [], 0, false;
    var page := 1;
    while page <= maxPages
      invariant 1 <= page && scanned == page - 1 && (maxPages >= 1 ==> page <= maxPages) && (maxPages < 1 ==> page == 1)
      invariant posts == Posted(Batches(pages, scanned))
      invariant lastFirst == LastFirst(posts) && totalFound == Found(posts)
      invariant Followed(pages, page - 1)
      invariant Reported(messages, posts, pages, totalEstimated, page)
      invariant !aborted
      decreases maxPages - page
    {
      var goOn;
      posts, messages, lastFirst, totalFound, aborted, goOn :=
        VisitPage(pages, page, maxPages, totalEstimated, posts, messages, lastFirst, totalFound);
      scanned := page;
      if !goOn {
        break;
      }
      page := page + 1;
    }
  }

  /**
   * `scrapeLinkedInInfinite(apiKey, maxPages)`: estimate the pages, run the
   * page loop, and finally report the end. A rejected post rejects the
   * whole function instead (`aborted`): the end is never reported. The key
   * only travels in the posts' header.
   */
  method ScrapeLinkedInInfinite(resultsText: Option<string>, maxPages: int, pages: seq<PageView>)
      returns (posts: seq<seq<AlumniData>>, messages: seq<Message>, scanned: nat, aborted: bool)
    ensures maxPages < 1 ==> scanned == 0 && !aborted
    ensures maxPages >= 1 ==> 1 <= scanned <= maxPages
    ensures Followed(pages, scanned - 1)
    ensures aborted ==> Aborts(pages, scanned) && posts == Posted(Batches(pages, scanned - 1)) && |messages| == |posts|
    ensures !aborted ==>
      posts == Posted(Batches(pages, scanned)) && |messages| == |posts| + 1 && messages[|posts|] == Finished
    ensures !aborted && 1 <= scanned < maxPages ==>
      View(pages, scanned).next != Enabled ||
      !PageChanges(View(pages, scanned).afterClick, LastFirst(posts))
    ensures Reported(messages[..|posts|], posts, pages, EstimatedPages(resultsText, maxPages), scanned + 1)
    ensures |posts| > 0 ==> EstimatedPages(resultsText, maxPages) >= 1
  {
    var totalEstimated := EstimatedPages(resultsText, maxPages);
    posts, messages, scanned, aborted := ScanPages(totalEstimated, maxPages, pages);
    ReportedFinish(messages, posts, pages, totalEstimated, scanned + 1);
    if aborted {
      assert messages[..|posts|] == messages;
    } else {
      messages := messages + [Finished];
    }
  }

  // ---------------------------------------------------------------------
  // The popup's progress display

  /** `Math.min((page / totalEstimated) * 100, 100)`, in exact arithmetic. */
  function ProgressPercent(page: int, totalEstimated: int): (r: real)
    requires totalEstimated > 0
    ensures r <= 100.0
    ensures page >= 0 ==> r >= 0.0
    ensures r == 100.0 || r * totalEstimated as real == page as real * 100.0
    ensures page >= totalEstimated ==> r == 100.0
  {
    var ratio := page as real / totalEstimated as real * 100.0;
    if ratio < 100.0 then ratio else 100.0
  }

  /** A later page never shows a shorter bar. */
  lemma ProgressPercentMonotone(p: int, q: int, totalEstimated: int)
    requires totalEstimated > 0 && p <= q
    ensures ProgressPercent(p, totalEstimated) <= ProgressPercent(q, totalEstimated)
  {
    var t := totalEstimated as real;
    assert p as real / t <= q as real / t by {
      DivideMonotone(p as real, q as real, t);
    }
  }

  lemma DivideMonotone(x: real, y: real, t: real)
    requires t > 0.0 && x <= y
    ensures x / t <= y / t
  {
    assert y / t - x / t == (y - x) / t;
  }

  /**
   * The progress messages of a scan name increasing pages against the same
   * estimate, so the bar the popup draws from them never shrinks.
   */
  lemma ReportedBarGrows(messages: seq<Message>, posts: seq<seq<AlumniData>>, pages: seq<PageView>,
                         totalEstimated: int, limit: int, i: nat, j: nat)
    requires Reported(messages, posts, pages, totalEstimated, limit) && totalEstimated > 0
    requires i < j < |posts|
    ensures messages[i].Progress? && messages[j].Progress?
    ensures ProgressPercent(messages[i].page, totalEstimated) <= ProgressPercent(messages[j].page, totalEstimated)
  {
    ProgressPercentMonotone(messages[i].page, messages[j].page, totalEstimated);
  }

  /** The bar width and the time estimate the popup shows for a message. */
  function OnMessage(msg: Message): (real, string)
    requires msg.Progress? ==> msg.totalEstimated > 0
  {
    match msg
    case Progress(page, totalEstimated, _) => (ProgressPercent(page, totalEstimated), PopupEstimate(page, totalEstimated))
    case Finished => (100.0, "0:00")
  }

  /**
   * Every message a scan sends can be shown. A scan's outputs (as
   * `ScrapeLinkedInInfinite` ensures them) carry an estimate of at least one
   * page in every progress message, so the bar lies between 0 and 100 and
   * the time left is the countdown of the pages left, `0:00` at the end.
   */
  lemma ScanMessagesDisplay(resultsText: Option<string>, maxPages: int, pages: seq<PageView>,
                            posts: seq<seq<AlumniData>>, messages: seq<Message>, scanned: nat, i: nat)
    requires maxPages < 1 ==> scanned == 0
    requires maxPages >= 1 ==> scanned <= maxPages
    requires |posts| <= |messages| <= |posts| + 1
    requires |messages| > |posts| ==> messages[|posts|] == Finished
    requires Reported(messages[..|posts|], posts, pages, EstimatedPages(resultsText, maxPages), scanned + 1)
    requires i < |messages|
    ensures messages[i].Progress? ==> messages[i].totalEstimated > 0
    ensures messages[i].Progress? ==>
      0.0 <= OnMessage(messages[i]).0 <= 100.0 &&
      OnMessage(messages[i]).1 == Display(Countdown(messages[i].totalEstimated - messages[i].page, POPUP_SECONDS_PER_PAGE))
    ensures messages[i] == Finished ==>
      OnMessage(messages[i]) == (100.0, Display(Countdown(0, POPUP_SECONDS_PER_PAGE)))
  {
    ScanEstimatePositive(resultsText, maxPages, pages, posts, messages, scanned);
    MessageDisplays(messages, |posts|, i);
  }

  /** The progress messages of a scan name a page from 1 against an estimate of at least one page. */
  lemma ScanEstimatePositive(resultsText: Option<string>, maxPages: int, pages: seq<PageView>,
                             posts: seq<seq<AlumniData>>, messages: seq<Message>, scanned: nat)
    requires maxPages < 1 ==> scanned == 0
    requires maxPages >= 1 ==> scanned <= maxPages
    requires |posts| <= |messages|
    requires Reported(messages[..|posts|], posts, pages, EstimatedPages(resultsText, maxPages), scanned + 1)
    ensures forall j :: 0 <= j < |posts| ==>
      messages[j].Progress? && 1 <= messages[j].page && messages[j].totalEstimated >= 1
  {
    var reported := messages[..|posts|];
    forall j | 0 <= j < |posts|
      ensures messages[j].Progress? && 1 <= messages[j].page && messages[j].totalEstimated >= 1
    {
      assert reported[j] == messages[j];
      assert 1 <= reported[j].page < scanned + 1;
    }
  }

  /** A progress message with an estimate of at least one page, or the final one, displays as the countdown says. */
  lemma MessageDisplays(messages: seq<Message>, n: nat, i: nat)
    requires n <= |messages| <= n + 1 && (|messages| > n ==> messages[n] == Finished)
    requires forall j :: 0 <= j < n ==> messages[j].Progress? && 1 <= messages[j].page && messages[j].totalEstimated >= 1
    requires i < |messages|
    ensures messages[i].Progress? ==> messages[i].totalEstimated > 0
    ensures messages[i].Progress? ==>
      0.0 <= OnMessage(messages[i]).0 <= 100.0 &&
      OnMessage(messages[i]).1 == Display(Countdown(messages[i].totalEstimated - messages[i].page, POPUP_SECONDS_PER_PAGE))
    ensures messages[i] == Finished ==>
      OnMessage(messages[i]) == (100.0, Display(Countdown(0, POPUP_SECONDS_PER_PAGE)))
  {
    NothingLeft(0, POPUP_SECONDS_PER_PAGE);
  }
}
