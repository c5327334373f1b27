/**
 * The page's form submission against the endpoint: `handleSubmit` posts the
 * form as JSON, and `response.ok` holds for a status in 200..299.
 */
module ContactFlow {
  import opened Wrappers
  import opened Email
  import opened ContactApi
  import opened Portfolio

  /** The request `fetch('/api/contact', { method: 'POST', body: JSON.stringify(formData) })` makes. */
  function PostOf(form: FormData): (req: Request)
    ensures req.httpMethod == "POST"
    ensures req.email == Some(form.email)
    ensures AllPresent(req) <==> form.name != "" && form.email != "" && form.message != ""
  {
    Request("POST", Some(form.name), Some(form.email), Some(form.message))
  }

  /** `response.ok`. */
  function OutcomeOf(r: Response): (o: FetchOutcome)
    ensures o != Threw
    ensures o == Ok <==> 200 <= r.status <= 299
  {
    if 200 <= r.status <= 299 then Ok else NotOk
  }

  /** A form the endpoint accepts: all three fields filled in, the address well shaped. */
  predicate FormAcceptable(form: FormData) {
    form.name != "" && form.email != "" && form.message != "" && EmailShape(form.email)
  }

  /** The page sees `response.ok` exactly for an acceptable form whose dispatch succeeds. */
  lemma ResponseOkIff(form: FormData, dispatch: Dispatch)
    ensures OutcomeOf(Handle(PostOf(form), dispatch)) == Ok <==> FormAcceptable(form) && dispatch == Delivered
  {
    HandleCases(PostOf(form), dispatch);
  }

  /**
   * One submission from the page, reaching the endpoint when `reachable`:
   * the page ends with the success banner and an emptied form exactly when
   * the endpoint accepted it.
   */
  method SubmitForm(page: PortfolioPage, reachable: bool, dispatch: Dispatch)
    modifies page
    ensures !page.isSubmitting && page.BannerShown()
    ensures page.SuccessStyled() <==> reachable && FormAcceptable(old(page.formData)) && dispatch == Delivered
    ensures !reachable ==> page.submitMessage == ErrorMessage
    ensures reachable && !(FormAcceptable(old(page.formData)) && dispatch == Delivered) ==>
      page.submitMessage == FailedMessage
    ensures reachable && FormAcceptable(old(page.formData)) && dispatch == Delivered ==>
      page.submitMessage == SentMessage
    ensures page.SuccessStyled() ==> page.formData == EmptyForm
    ensures !page.SuccessStyled() ==> page.formData == old(page.formData)
    ensures page.isMenuOpen == old(page.isMenuOpen) && page.activeSection == old(page.activeSection)
  {
    var form := page.formData;
    var outcome := if reachable then OutcomeOf(Handle(PostOf(form), dispatch)) else Threw;
    ResponseOkIff(form, dispatch);
    var sent := page.HandleSubmit(outcome);
  }
}
