/**
 * The client-side state of the portfolio page: the menu, the scroll spy and
 * the contact form. The rendering is not modelled; the page's DOM is given
 * as a Layout (which ids exist and where their rectangles lie) and the fetch
 * of the contact endpoint as a FetchOutcome.
 */
module Portfolio {
  import opened Wrappers

  datatype FormData = FormData(name: string, email: string, message: string)

  const EmptyForm := FormData("", "", "")

  /** The vertical extent of an element's bounding rectangle, in viewport pixels. */
  datatype Rect = Rect(top: int, bottom: int)

  /** The elements on the page by id; an id not in the map has no element. */
  type Layout = map<string, Rect>

  /** The sections the scroll spy looks at, in the order it looks at them. */
  const Sections: seq<string> := ["home", "about", "skills", "experience", "projects", "services", "contact"]

  /** The viewport height at which a section counts as the current one. */
  const SpyLine := 100

  /** Outcome of `fetch('/api/contact', ...)`: `response.ok`, not ok, or thrown. */
  datatype FetchOutcome = Ok | NotOk | Threw

  /** The word whose presence selects the success styling of the banner. */
  const SuccessMarker := "successfully"

  /** The banner texts; the first reads "Message sent successfully! I will get back to you soon." */
  const SentMessage := "Message sent " + SuccessMarker + "! I will get back to you soon."
  const FailedMessage := "Failed to send message. Please try again."
  const ErrorMessage := "Error sending message. Please use the email option."

  predicate AtSpyLine(layout: Layout, id: string) {
    id in layout && layout[id].top <= SpyLine && layout[id].bottom >= SpyLine
  }

  /** Section `k` is at the spy line and no earlier section is. */
  ghost predicate FirstAtSpyLine(layout: Layout, k: int) {
    0 <= k < |Sections| && AtSpyLine(layout, Sections[k]) &&
    forall j :: 0 <= j < k ==> !AtSpyLine(layout, Sections[j])
  }

  ghost predicate NoneAtSpyLine(layout: Layout) {
    forall j :: 0 <= j < |Sections| ==> !AtSpyLine(layout, Sections[j])
  }

  /** `sections.find(...)`: the first section whose element spans the spy line. */
  method FindCurrent(layout: Layout) returns (current: Option<string>)
    ensures NoneAtSpyLine(layout) ==> current == None
    ensures forall k :: FirstAtSpyLine(layout, k) ==> current == Some(Sections[k])
  {
    var i := 0;
    while i < |Sections|
      invariant 0 <= i <= |Sections|
      invariant forall j :: 0 <= j < i ==> !AtSpyLine(layout, Sections[j])
    {
      if AtSpyLine(layout, Sections[i]) {
        return Some(Sections[i]);
      }
      i := i + 1;
    }
    return None;
  }

  /** `p` occurs in `s` starting at index `k`. */
  predicate OccursAt(s: string, p: string, k: int) {
    0 <= k <= |s| - |p| && s[k..k + |p|] == p
  }

  /** `s.includes(p)`: `p` occurs in `s` as a contiguous piece. */
  predicate Includes(s: string, p: string): (b: bool)
    ensures (|p| <= |s| && s[..|p|] == p) ==> b
    ensures b ==> |p| <= |s|
    ensures b ==> forall i :: 0 <= i < |p| ==> p[i] in s
  {
    assert |p| <= |s| && s[..|p|] == p ==> OccursAt(s, p, 0);
    assert forall k :: OccursAt(s, p, k) ==> forall i :: 0 <= i < |p| ==> p[i] == s[k + i];
    exists k :: 0 <= k <= |s| - |p| && OccursAt(s, p, k)
  }

  /** A character that does not occur in `s` keeps every piece containing it out of `s`. */
  lemma AbsentCharExcludes(s: string, p: string, i: nat)
    requires i < |p| && p[i] !in s
    ensures !Includes(s, p)
  {
    assert forall k :: OccursAt(s, p, k) ==> s[k..k + |p|][i] == s[k + i];
  }

  lemma OccursInMiddle(a: string, b: string, c: string)
    ensures OccursAt(a + b + c, b, |a|)
  {
    assert (a + b + c)[|a|..|a| + |b|] == b;
  }

  lemma NotInConcat(x: char, a: string, b: string)
    requires x !in a && x !in b
    ensures x !in a + b
  {
    assert forall k :: 0 <= k < |a + b| ==> (a + b)[k] == if k < |a| then a[k] else b[k - |a|];
  }

  lemma SentHasMarker()
    ensures OccursAt(SentMessage, SuccessMarker, 13)
  {
    OccursInMiddle("Message sent ", SuccessMarker, "! I will get back to you soon.");
  }

  lemma FailedLacksU()
    ensures 'u' !in FailedMessage
  {
    NotInConcat('u', "Failed to", " send");
    NotInConcat('u', "Failed to send", " message.");
    NotInConcat('u', " Please", " try again.");
    NotInConcat('u', "Failed to send message.", " Please try again.");
  }

  lemma ErrorLacksY()
    ensures 'y' !in ErrorMessage
  {
    NotInConcat('y', "Error ", "sending");
    NotInConcat('y', " message.", " Please");
    NotInConcat('y', "Error sending", " message. Please");
    NotInConcat('y', " use the", " email");
    NotInConcat('y', " use the email", " option.");
    NotInConcat('y', "Error sending message. Please", " use the email option.");
  }

  /** The success message, and neither failure message, carries the success marker. */
  lemma MarkerOnlyInSuccess()
    ensures Includes(SentMessage, SuccessMarker)
    ensures !Includes(FailedMessage, SuccessMarker)
    ensures !Includes(ErrorMessage, SuccessMarker)
  {
    SentHasMarker();
    FailedLacksU();
    ErrorLacksY();
    assert SuccessMarker[1] == 'u' && SuccessMarker[11] == 'y';
    AbsentCharExcludes(FailedMessage, SuccessMarker, 1);
    AbsentCharExcludes(ErrorMessage, SuccessMarker, 11);
  }

  /** The page's React state. */
  class PortfolioPage {
    var isMenuOpen: bool
    var activeSection: string
    var formData: FormData
    var isSubmitting: bool
    var submitMessage: string

    constructor ()
      ensures !isMenuOpen && activeSection == "home" && formData == EmptyForm
      ensures !isSubmitting && submitMessage == ""
    {
      isMenuOpen := false;
      activeSection := "home";
      formData := EmptyForm;
      isSubmitting := false;
      submitMessage := "";
    }

    /** The status banner is rendered at all: `submitMessage` is truthy. */
    predicate BannerShown(): (b: bool)
      reads this
      ensures b <==> |submitMessage| > 0
    {
      submitMessage != ""
    }

    /** The status banner gets the green (success) styling; only a shown banner can. */
    predicate SuccessStyled(): (b: bool)
      reads this
      ensures b ==> BannerShown()
    {
      Includes(submitMessage, SuccessMarker)
    }

    /** The menu button. */
    method ToggleMenu()
      modifies this
      ensures isMenuOpen == !old(isMenuOpen)
      ensures activeSection == old(activeSection) && formData == old(formData)
      ensures isSubmitting == old(isSubmitting) && submitMessage == old(submitMessage)
    {
      isMenuOpen := !isMenuOpen;
    }

    /** A navigation button: scroll to `id` and close the menu, if the element exists. */
    method ScrollToSection(id: string, layout: Layout)
      modifies this
      ensures isMenuOpen == (old(isMenuOpen) && id !in layout)
      ensures activeSection == old(activeSection) && formData == old(formData)
      ensures isSubmitting == old(isSubmitting) && submitMessage == old(submitMessage)
    {
      if id in layout {
        isMenuOpen := false;
      }
    }

    /** The scroll listener: make the first section at the spy line the active one. */
    method HandleScroll(layout: Layout)
      modifies this
      ensures NoneAtSpyLine(layout) ==> activeSection == old(activeSection)
      ensures forall k :: FirstAtSpyLine(layout, k) ==> activeSection == Sections[k]
      ensures isMenuOpen == old(isMenuOpen) && formData == old(formData)
      ensures isSubmitting == old(isSubmitting) && submitMessage == old(submitMessage)
    {
      var current := FindCurrent(layout);
      if current.Some? {
        activeSection := current.value;
      }
    }

    /** `handleSubmit` up to the await: mark the form busy, clear the banner, send the form. */
    method BeginSubmit() returns (payload: FormData)
      modifies this
      ensures isSubmitting && submitMessage == ""
      ensures payload == formData == old(formData)
      ensures isMenuOpen == old(isMenuOpen) && activeSection == old(activeSection)
    {
      isSubmitting := true;
      submitMessage := "";
      payload := formData;
    }

    /** `handleSubmit` after the await: report the outcome and release the form. */
    method CompleteSubmit(outcome: FetchOutcome)
      modifies this
      ensures !isSubmitting
      ensures outcome == Ok ==> submitMessage == SentMessage && formData == EmptyForm
      ensures outcome == NotOk ==> submitMessage == FailedMessage && formData == old(formData)
      ensures outcome == Threw ==> submitMessage == ErrorMessage && formData == old(formData)
      ensures BannerShown()
      ensures SuccessStyled() <==> outcome == Ok
      ensures isMenuOpen == old(isMenuOpen) && activeSection == old(activeSection)
    {
      match outcome {
        case Ok =>
          submitMessage := SentMessage;
          formData := EmptyForm;
        case NotOk =>
          submitMessage := FailedMessage;
        case Threw =>
          submitMessage := ErrorMessage;
      }
      isSubmitting := false;
      MarkerOnlyInSuccess();
    }

    /** The whole of `handleSubmit`, with the fetch resolved to `outcome`. */
    method HandleSubmit(outcome: FetchOutcome) returns (payload: FormData)
      modifies this
      ensures payload == old(formData)
      ensures !isSubmitting
      ensures outcome == Ok ==> submitMessage == SentMessage && formData == EmptyForm
      ensures outcome == NotOk ==> submitMessage == FailedMessage && formData == old(formData)
      ensures outcome == Threw ==> submitMessage == ErrorMessage && formData == old(formData)
      ensures SuccessStyled() <==> outcome == Ok
      ensures isMenuOpen == old(isMenuOpen) && activeSection == old(activeSection)
    {
      payload := BeginSubmit();
      CompleteSubmit(outcome);
    }
  }
}
