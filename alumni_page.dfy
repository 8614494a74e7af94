/**
 * The public alumni directory's card: the status the degree column encodes
 * (found by the robot, searched for but not found, or not yet searched), the
 * badge it shows, and the promotion and cursus lines it hides for a profile
 * whose education was not found.
 */
module AlumniPage {
  import opened Wrappers
  import opened JsNumbers
  import opened AlumniStore
  import opened AdminActions

  /** `profile.degree && degree !== 'Importé via Excel' && degree !== 'Parcours non trouvé'`. */
  predicate IsVerified(degree: Option<string>) {
    degree.Some? && degree.value != "" && degree.value != IMPORTED_FROM_EXCEL && degree.value != NOT_FOUND
  }

  /** `profile.degree === 'Parcours non trouvé'`. */
  predicate IsNotFound(degree: Option<string>) {
    degree == Some(NOT_FOUND)
  }

  /** A number column is truthy in JavaScript unless null or zero. */
  predicate Truthy(n: Option<int>) {
    n.Some? && n.value != 0
  }

  datatype Badge = Verified | Unknown | NoBadge

  /** What a card shows besides the name, the avatar and the links. */
  datatype Card = Card(badge: Badge, promo: Option<int>, degreeLine: Option<string>, cursus: Option<string>)

  /** The card of one profile row. */
  function CardOf(r: Row): (c: Card)
    ensures c.badge == Verified <==> IsVerified(r.degree)
    ensures c.badge == Unknown <==> IsNotFound(r.degree)
    ensures c.promo.Some? <==> Truthy(r.gradYear) && !IsNotFound(r.degree)
    ensures c.cursus.Some? <==> Truthy(r.entryYear) && !IsNotFound(r.degree)
    ensures c.degreeLine.Some? <==> r.degree.Some? && r.degree.value != ""
  {
    var verified := IsVerified(r.degree);
    var notFound := IsNotFound(r.degree);
    var badge := if verified then Verified else if notFound then Unknown else NoBadge;
    var promo := if Truthy(r.gradYear) && !notFound then r.gradYear else None;
    var degreeLine := if r.degree.Some? && r.degree.value != "" then r.degree else None;
    var cursus :=
      if Truthy(r.entryYear) && !notFound then
        Some("Cursus : " + IntToString(r.entryYear.value) + " — " +
             (if Truthy(r.gradYear) then IntToString(r.gradYear.value) else "?"))
      else None;
    Card(badge, promo, degreeLine, cursus)
  }

  /** No degree is both found and not found. */
  lemma StatusExclusive(degree: Option<string>)
    ensures !(IsVerified(degree) && IsNotFound(degree))
  {
  }

  /** A null or empty degree and the import sentinel are neither found nor not found; any other value but the not-found marker is found. */
  lemma StatusCases(degree: Option<string>)
    ensures degree.None? || degree == Some("") || degree == Some(IMPORTED_FROM_EXCEL) ==>
      !IsVerified(degree) && !IsNotFound(degree)
    ensures degree.Some? && degree.value !in {"", IMPORTED_FROM_EXCEL, NOT_FOUND} ==> IsVerified(degree)
  {
  }

  /**
   * The rows the progress figures count as processed are exactly those the
   * directory shows as found or not found, plus those whose degree is the
   * empty string.
   */
  lemma ProcessedIsClassified(r: Row)
    ensures Processed(r) <==> IsVerified(r.degree) || IsNotFound(r.degree) || r.degree == Some("")
  {
  }

  /** For a row in the not-found state the promotion and the cursus are hidden, whatever the years. */
  lemma NotFoundHidesYears(r: Row)
    requires r.degree == Some(NOT_FOUND)
    ensures CardOf(r).promo.None? && CardOf(r).cursus.None? && CardOf(r).badge == Unknown
  {
  }
}
