/**
 * The job offer form's schema: length bounds on the text fields, the
 * contract type drawn from a fixed list, and a link that may be absent,
 * empty, or a URL. What counts as a URL is the validator's business and is
 * taken as a parameter.
 */
module JobForm {
  import opened Wrappers
  import opened Validation

  datatype JobInput = JobInput(
    title: string,
    company: string,
    description: string,
    kind: string,
    location: string,
    link: Option<string>)

  /** The values of `z.enum([...])`. */
  const JOB_TYPES: seq<string> := ["CDI", "CDD", "STAGE", "ALTERNANCE", "FREELANCE"]

  const ENUM_MESSAGE: string := "Invalid enum value"
  const URL_MESSAGE: string := "L'URL doit être valide"

  /**
   * `z.string().url(...).optional().or(z.literal(''))`: the first option
   * takes an absent link or a URL, the second the empty string. When both
   * fail, the union reports the first option's issue.
   */
  function LinkIssues(link: Option<string>, isUrl: string -> bool): (issues: seq<Issue>)
    ensures issues == [] <==> link.None? || link.value == "" || isUrl(link.value)
    ensures issues != [] ==> issues == [Issue("link", URL_MESSAGE)]
  {
    var first := link.None? || isUrl(link.value);
    var second := link == Some("");
    if first || second then [] else [Issue("link", URL_MESSAGE)]
  }

  /** The issues of `jobSchema`, the fields in declaration order. */
  function JobIssues(j: JobInput, isUrl: string -> bool): (issues: seq<Issue>)
    ensures |issues| <= 6
  {
    MinLength("title", j.title, 3, "Le titre doit faire au moins 3 caractères") +
    MinLength("company", j.company, 2, "Le nom de l'entreprise est obligatoire") +
    MinLength("description", j.description, 10, "La description doit être plus détaillée") +
    Check("type", j.kind in JOB_TYPES, ENUM_MESSAGE) +
    MinLength("location", j.location, 2, "Le lieu est obligatoire") +
    LinkIssues(j.link, isUrl)
  }

  /** The offer is accepted exactly when each bound holds, the type is listed and the link is absent, empty or a URL. */
  lemma JobAcceptedIff(j: JobInput, isUrl: string -> bool)
    ensures JobIssues(j, isUrl) == [] <==>
      |j.title| >= 3 && |j.company| >= 2 && |j.description| >= 10 &&
      j.kind in {"CDI", "CDD", "STAGE", "ALTERNANCE", "FREELANCE"} && |j.location| >= 2 &&
      (j.link.None? || j.link.value == "" || isUrl(j.link.value))
  {
    assert j.kind in JOB_TYPES <==> j.kind in {"CDI", "CDD", "STAGE", "ALTERNANCE", "FREELANCE"};
  }

  /** Every issue names one of the schema's fields. */
  lemma JobIssuePaths(j: JobInput, isUrl: string -> bool)
    ensures forall x :: x in JobIssues(j, isUrl) ==>
      x.path in {"title", "company", "description", "type", "location", "link"}
  {
  }

  /** A submitted link that is not a URL is refused on `link`, even when everything else is right. */
  lemma BadLinkRefused(j: JobInput, isUrl: string -> bool)
    requires j.link.Some? && j.link.value != "" && !isUrl(j.link.value)
    ensures Issue("link", URL_MESSAGE) in JobIssues(j, isUrl)
  {
  }
}
