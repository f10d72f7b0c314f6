/**
 * `StagingCiteEntry2` (bioimg_gui/src/widgets/cite_widget.rs): a staged record of one
 * required text field and two optional fields, the DOI and the URL.
 *
 * Each draw recomputes the three children in declared order and then assembles the
 * record, stopping at the first field whose result is an error. Absent optional
 * fields do not block the record.
 */
module CiteWidget {
  import opened Results
  import opened CiteEntries
  import opened Staging

  /** The fields of the record, in declared order. */
  datatype CiteField = TextField | DoiField | UrlField

  /** `CiteEntry2ParsingError`: `Empty` before the first draw, otherwise the field that failed
      and its error message. */
  datatype CiteEntry2ParsingError = Empty | FieldError(field: CiteField, message: GuiError)

  /** The conversion of the text into a `BoundedString<1, 1023>` returns the text it was given. */
  ghost predicate KeepsText(validateText: string -> Result<ConfString, GuiError>)
  {
    forall s :: validateText(s).Ok? ==> validateText(s).value == s
  }

  /** The `?`-chain of `do_draw_and_parse`: text, then `doi.transpose()`, then `url.transpose()`. */
  function Assemble(text: Result<ConfString, GuiError>,
                    doi: Option<Result<ConfString, GuiError>>,
                    url: Option<Result<Url, GuiError>>): (r: Result<CiteEntry2, CiteEntry2ParsingError>)
    ensures r != Err(Empty)
    ensures text.Err? ==> r == Err(FieldError(TextField, text.error))
    ensures r.Ok? <==> text.Ok? && Transpose(doi).Ok? && Transpose(url).Ok?
    ensures r.Ok? ==> r.value == CiteEntry2(text.value, Transpose(doi).value, Transpose(url).value)
  {
    match text
    case Err(e) => Err(FieldError(TextField, e))
    case Ok(t) =>
      match Transpose(doi)
      case Err(e) => Err(FieldError(DoiField, e))
      case Ok(d) =>
        match Transpose(url)
        case Err(e) => Err(FieldError(UrlField, e))
        case Ok(u) => Ok(CiteEntry2(t, d, u))
  }

  /** Every field error, in declared field order; an absent optional field has none. */
  function FieldErrors(text: Result<ConfString, GuiError>,
                       doi: Option<Result<ConfString, GuiError>>,
                       url: Option<Result<Url, GuiError>>): seq<CiteEntry2ParsingError>
  {
    (if text.Err? then [FieldError(TextField, text.error)] else [])
    + (if doi.Some? && doi.value.Err? then [FieldError(DoiField, doi.value.error)] else [])
    + (if url.Some? && url.value.Err? then [FieldError(UrlField, url.value.error)] else [])
  }

  /** The record fails exactly when some field fails, and reports the first failure in declared order. */
  lemma AssembleFirstError(text: Result<ConfString, GuiError>,
                           doi: Option<Result<ConfString, GuiError>>,
                           url: Option<Result<Url, GuiError>>)
    ensures Assemble(text, doi, url).Err? <==> |FieldErrors(text, doi, url)| > 0
    ensures Assemble(text, doi, url).Err? ==> Assemble(text, doi, url).error == FieldErrors(text, doi, url)[0]
  {
  }

  /** Absent optional fields never block the record: it is then made of the text alone. */
  lemma AssembleAbsentOptionals(text: Result<ConfString, GuiError>)
    ensures text.Ok? ==> Assemble(text, None, None) == Ok(CiteEntry2(text.value, None, None))
    ensures text.Err? ==> Assemble(text, None, None) == Err(FieldError(TextField, text.error))
  {
  }

  /** A record assembled from three valid fields is the conversion of the complete `CiteEntry`. */
  lemma AssembleComplete(e: CiteEntry)
    ensures Assemble(Ok(e.text), Some(Ok(e.doi)), Some(Ok(e.url))) == Ok(FromCiteEntry(e))
  {
  }

  /** An empty text field is reported as the text field's own error, never as `Empty`. */
  lemma AssembleEmptyText(validateText: string -> Result<ConfString, GuiError>,
                          doi: Option<Result<ConfString, GuiError>>,
                          url: Option<Result<Url, GuiError>>)
    requires KeepsText(validateText)
    ensures validateText("").Err?
    ensures Assemble(validateText(""), doi, url) == Err(FieldError(TextField, validateText("").error))
  {
  }

  class StagingCiteEntry2 {
    const text: StagingScalar<string, ConfString>
    const doi: StagingOpt<string, ConfString>
    const url: StagingOpt<string, Url>
    var parsed: Result<CiteEntry2, CiteEntry2ParsingError>

    /** The children are distinct and valid, the DOI converts like the text, and the result is
        `Empty` or the assembly of the children's current states. */
    ghost predicate Valid()
      reads this, text, doi, url, doi.child, url.child
    {
      && text.Valid() && doi.Valid() && url.Valid()
      && doi.validate == text.validate
      && doi.defaultRaw == "" && url.defaultRaw == ""
      && doi.child != text
      && (url.child != null ==> url.child as object != text as object)
      && (url.child != null && doi.child != null ==> url.child as object != doi.child as object)
      && (parsed == Err(Empty) || parsed == Assemble(text.State(), doi.State(), url.State()))
    }

    /** `Default`: empty text, no DOI, no URL, and the result `Empty`. */
    constructor (validateText: string -> Result<ConfString, GuiError>,
                 validateUrl: string -> Result<Url, GuiError>)
      ensures Valid()
      ensures fresh(text) && fresh(doi) && fresh(url)
      ensures text.validate == validateText && url.validate == validateUrl
      ensures text.raw == "" && doi.child == null && url.child == null
      ensures parsed == Err(Empty)
    {
      text := new StagingScalar("", validateText);
      doi := new StagingOpt("", validateText);
      url := new StagingOpt("", validateUrl);
      parsed := Err(Empty);
    }

    /** `draw_and_parse`: draws text, DOI and URL in that order, each with its own edit and
        clicks, then stores the assembly of their states. */
    method DrawAndParse(textRaw: string, doiRaw: string, doiClick: OptClick, urlRaw: string, urlClick: OptClick)
      requires Valid()
      modifies this, text, doi, doi.child, url, url.child
      ensures Valid()
      ensures text.raw == textRaw
      ensures parsed == Assemble(text.validate(textRaw), doi.State(), url.State())
      ensures parsed != Err(Empty)
      ensures doi.State() ==
                if old(doi.child) == null then
                  (if doiClick == AddClicked then Some(text.validate("")) else None)
                else
                  (if doiClick == RemoveClicked then None else Some(text.validate(doiRaw)))
      ensures url.State() ==
                if old(url.child) == null then
                  (if urlClick == AddClicked then Some(url.validate("")) else None)
                else
                  (if urlClick == RemoveClicked then None else Some(url.validate(urlRaw)))
      ensures old(doi.child) != null && doiClick != RemoveClicked ==> doi.child == old(doi.child) && doi.child.raw == doiRaw
      ensures old(doi.child) == null && doiClick == AddClicked ==> fresh(doi.child) && doi.child.raw == ""
      ensures old(url.child) != null && urlClick != RemoveClicked ==> url.child == old(url.child) && url.child.raw == urlRaw
      ensures old(url.child) == null && urlClick == AddClicked ==> fresh(url.child) && url.child.raw == ""
    {
      text.DrawAndParse(textRaw);
      var textRes := text.State();
      doi.DrawAndParse(doiRaw, doiClick);
      var doiRes := doi.State();
      url.DrawAndParse(urlRaw, urlClick);
      var urlRes := url.State();
      parsed := Assemble(textRes, doiRes, urlRes);
    }

    /** `state`: a copy of the last result, which is `Empty` only before the first draw and
        otherwise the assembly of the children's states. */
    function State(): (r: Result<CiteEntry2, CiteEntry2ParsingError>)
      reads this, text, doi, url, doi.child, url.child
      ensures Valid() ==> r == Err(Empty) || r == Assemble(text.State(), doi.State(), url.State())
    {
      parsed
    }
  }
}
