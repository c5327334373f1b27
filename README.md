# Portfolio site: contact endpoint and page state, modelled in Dafny

The site is one scrolling page (`pages/index.js`) and one serverless endpoint
(`pages/api/contact.js`) that takes the page's contact form. This project
models the small amount of logic in both.

- **Email** (`email.dfy`): the endpoint's address rule, the regular expression
  `^[^\s@]+@[^\s@]+\.[^\s@]+$`. It is defined three ways, and the three are
  proved equal:
  - `RegexMatches` is the pattern read literally, with one split point per run.
  - `Run` is a seven-state recogniser that reads one character at a time.
    `IsValidEmail`, the test the handler uses, runs it from its start state.
  - `EmailShape` is a structural description: no white space, exactly one
    `@`, a non-empty part before it, and a domain with an inner `.` (one that
    is neither its first nor its last character).

  `\s` is ECMAScript's WhiteSpace and LineTerminator set, written out code
  point by code point in `IsWs`.
- **ContactApi** (`contact_api.dfy`): the handler as a pure function
  `Handle(request, dispatch)`. It checks the method, then field presence, then
  the address shape, then returns 200 or 500. `dispatch` says whether the
  try block finished or raised an error.
- **Portfolio** (`portfolio.dfy`): the page's React state as a class
  `PortfolioPage` with the five state fields. Its methods are the menu toggle,
  `scrollToSection`, the scroll-spy listener and `handleSubmit`.
  `handleSubmit` is split at its `await` into `BeginSubmit` and
  `CompleteSubmit`, so the state while the request is pending can be stated.
  The scroll spy's `sections.find(...)` is a loop, `FindCurrent`. The DOM is
  a `Layout`, a map from element id to its rectangle. An id missing from the
  map is an element that does not exist.
- **ContactFlow** (`contact_flow.dfy`): the page's POST to the endpoint. It
  ties the response status (`response.ok`) back to what the handler does.

`Handle` is a Dafny function, so the handler is deterministic and keeps no
state by construction: identical submissions get identical responses.

Two facts about the code that the model keeps:

- The address rule rejects white space anywhere in the address.
- Any failure inside the try block gives the one generic 500.

## Model

| member | source | states |
|---|---|---|
| `Email.RecogniserIffRegex` | pages/api/contact.js:14 | the recogniser, run from its start state, accepts a string exactly when the pattern `^[^\s@]+@[^\s@]+\.[^\s@]+$` matches it |
| `Email.RegexIffShape` | pages/api/contact.js:14 | the pattern matches exactly the strings with no white space, exactly one `@`, a non-empty part before it and a `.` at position 1..len-2 of the domain |
| `Email.IsValidEmail` | pages/api/contact.js:14 | the `.test(email)` the handler runs: true exactly when the pattern matches, and exactly when the address is well shaped (both directions) |
| `Email.RunLocal` | pages/api/contact.js:14 | after a non-empty local part, the rest is accepted exactly when it is `[^\s@]*@` followed by an all-class domain with an inner dot |
| `Email.RunAtSign` | pages/api/contact.js:14 | after the `@`, the rest is accepted exactly when it is all `[^\s@]` and has a `.` that is neither its first nor its last character |
| `Email.RunHost` | pages/api/contact.js:14 | inside the domain, the rest is accepted exactly when it is all `[^\s@]` and has a `.` followed by at least one character |
| `Email.SplitToShape` | pages/api/contact.js:14 | a non-empty class run, an `@`, then an all-class domain with an inner dot, is well shaped (the single `@` is found where the split put it) |
| `ContactApi.Handle` | pages/api/contact.js:2-65 | the status is one of 200, 400, 405, 500; the message is one of the five fixed strings; an `error` field is present exactly on a 500 |
| `ContactApi.Present` | pages/api/contact.js:10 | the truthiness test on one body field: it passes exactly when the field is neither absent (`undefined`) nor the empty string |
| `ContactApi.HandleCases` | pages/api/contact.js:3-63 | 405 exactly for non-POST; "Missing required fields" exactly for a POST with a field absent or empty; "Invalid email format" exactly for a POST with all fields and a badly shaped address; 200 exactly for an acceptable request whose dispatch finished; 500 exactly for an acceptable request whose dispatch raised |
| `ContactApi.MethodCheckFirst` | pages/api/contact.js:3-5 | a non-POST request gets 405 "Method not allowed" whatever its fields and whatever the dispatch |
| `ContactApi.PresenceCheckBeforeEmail` | pages/api/contact.js:10-12 | with the name or the message missing, a POST gets 400 "Missing required fields" whatever the address, so the presence check precedes the shape check |
| `ContactApi.EmailRule` | pages/api/contact.js:14-16 | with all fields present, a POST gets 400 "Invalid email format" exactly when the address is not well shaped |
| `ContactApi.AcceptedIsAcknowledged` | pages/api/contact.js:55-57 | an acceptable request whose dispatch finishes gets 200 with the fixed acknowledgement |
| `ContactApi.ServerErrorOnlyWhenThrown` | pages/api/contact.js:58-63 | a 500 arises only for an acceptable request whose dispatch raised, and carries that error's message |
| `ContactApi.NoEcho` | pages/api/contact.js:3-63 | two requests that agree on the method, on which fields are present and on the address shape get the same response, so no field content is echoed |
| `ContactApi.ExampleSubmission` | pages/api/contact.js:55-57 | the submission `Jane Doe` / `jane@example.com` / `Hello` is acknowledged with 200 |
| `Portfolio.FindCurrent` | pages/index.js:14-22 | returns the first section, in the fixed order, whose element exists and spans y=100; returns nothing when no section does |
| `Portfolio.Includes` | pages/index.js:419 | `String.prototype.includes`: a prefix match is included; an included piece is no longer than the string and each of its characters occurs in the string |
| `Portfolio.MarkerOnlyInSuccess` | pages/index.js:53-59 | the success message includes "successfully"; neither failure message does |
| `Portfolio.PortfolioPage.constructor` | pages/index.js:6-10 | menu closed, active section "home", empty form, not submitting, no banner message |
| `Portfolio.PortfolioPage.BannerShown` | pages/index.js:418 | the banner is rendered exactly when `submitMessage` is non-empty (truthy) |
| `Portfolio.PortfolioPage.SuccessStyled` | pages/index.js:419 | the banner gets the green styling when `submitMessage` includes "successfully"; a styled banner is always a shown one |
| `Portfolio.PortfolioPage.ToggleMenu` | pages/index.js:99 | flips `isMenuOpen`; nothing else changes |
| `Portfolio.PortfolioPage.ScrollToSection` | pages/index.js:30-36 | closes the menu when the target element exists; otherwise nothing changes; nothing else ever changes |
| `Portfolio.PortfolioPage.HandleScroll` | pages/index.js:13-24 | `activeSection` becomes the first section at the spy line, or stays as it was when there is none; nothing else changes |
| `Portfolio.PortfolioPage.BeginSubmit` | pages/index.js:39-50 | while the request is pending, `isSubmitting` is true and the banner message is empty; the form as it stands is what is sent |
| `Portfolio.PortfolioPage.CompleteSubmit` | pages/index.js:52-62 | `isSubmitting` is false after every outcome; ok gives the sent message and an emptied form; not ok and thrown give their failure messages and keep the form; the banner is shown and has the success styling exactly for ok |
| `Portfolio.PortfolioPage.HandleSubmit` | pages/index.js:38-63 | the whole handler: the form is sent as it stood, and the end state is as in `CompleteSubmit` |
| `ContactFlow.PostOf` | pages/index.js:44-50 | the request the page sends is a POST carrying the form's address; all its fields are present exactly when the three form fields are non-empty |
| `ContactFlow.OutcomeOf` | pages/index.js:52 | `response.ok`: ok exactly for a status in 200..299; a response that arrived is never the thrown outcome |
| `ContactFlow.ResponseOkIff` | pages/index.js:44-52 | the page sees `response.ok` exactly when all three fields are filled in, the address is well shaped and the endpoint's dispatch finishes |
| `ContactFlow.SubmitForm` | pages/index.js:38-63 | after one submission: an unreachable endpoint gives "Error sending message. Please use the email option."; a reached endpoint that does not accept the form gives "Failed to send message. Please try again."; an accepting one gives the sent message; the banner has the success styling exactly in the last case, when the form is emptied, and the form is kept otherwise |

## Left out

- Logging (`console.log`, `console.error`) and the server timestamp are I/O and clock effects. Only what the try block did, finished or raised, is kept, as `Dispatch`.
- The commented-out e-mail delivery code is not active, so it is not modelled.
- `fetch`, JSON encoding and `res.status().json()` are replaced by the `Request` and `Response` datatypes and the `FetchOutcome` enumeration. The body is taken as already parsed.
- Fields that are not strings are not modelled: JavaScript truthiness of numbers and objects in the body, and a missing body, which makes the destructuring throw outside the try block. A field is `Option<string>`, and "missing" means absent or empty.
- JavaScript strings are UTF-16 and the pattern has no `u` flag, so it reads code units. It accepts the same strings as the model, which reads scalar values: a surrogate is neither white space nor `@`, and every class run has a `+`.
- `getBoundingClientRect` returns floating-point coordinates. The model uses integers.
- Rendering, styling, `<Head>` metadata and the page copy are not modelled. This includes the `onChange` field editors, the `disabled` attributes and the browser's own `required` and `type="email"` checks.
- Placing `scrollIntoView` and adding or removing the scroll listener are DOM effects. Only their effect on the state fields is modelled.
- `tailwind.config.js` is styling configuration and is not part of this model.
- Determinism of the handler is not a separate lemma. `Handle` is a function, so equal inputs give equal responses by construction.
