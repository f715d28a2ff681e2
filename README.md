# job-online, modelled in Dafny

A model of the job board's core logic, with proofs about it. The job board has a Node/Express back end over a
MongoDB job collection and a React front end. The model covers:

- the job controller's five handlers (create, list, list by creator, delete, update), as methods of a
  `JobStore` class over a map from job id to job record; create, delete and update answer with an `Outcome`
  whose HTTP status is `StatusCode`, and the two listings answer with a status and the list;
- the client-side filters: the job list page's keyword filter and the recruiter table's search filter, as
  order-preserving filters over sequences;
- the recruiter table's "deleting" guard, as a small class;
- the filter card's two-key selection state and the effect that publishes it;
- the company settings form: its validation, which builds an error map, and its change handlers;
- the sign-up form's validation rules and the record it submits.

Files:

- `wrappers.dfy`: `Option` and `Result`.
- `text.dfy`: the JavaScript string operations the code relies on.
  - `trim`, with the ECMAScript white-space set;
  - `toLowerCase`, for ASCII;
  - `includes`, as substring occurrence;
  - `split` on one character, with `Join` as its inverse.
- `seqs.dfy`: `Keep`, which is `Array.prototype.filter`, and the subsequence relation.
- `files.dfy`: a browser file, reduced to its name and MIME type.
- One file per core source file: `job_controller.dfy`, `jobs_view.dfy`, `admin_jobs_table.dfy`,
  `filter_card.dfy`, `company_setup.dfy`, `signup.dfy`.

Where the behaviour differs from what a reader of the design might expect, the model follows the code:

- **Listings never answer 404.** `getAllJobs` and `getAdminJobs` guard with `!jobs`, which is never true of a
  list, so an empty result is a 200.
- **Create and update normalise differently.**
  - Update splits requirements without trimming.
  - Update tests numbers by truthiness rather than positivity.
  - Update stores `position` uncoerced.
  - Update hands the job to the requester.
- **The admin listing's sort request has no effect.** It is passed to `populate`, so the list is in no
  particular order.
- **Job search uses a single keyword.** The job list page matches one keyword against title, description and
  location. No code matches a structured `{location, field}` criterion: the filter card publishes an object,
  and the page converts it with `String(...)`.

## Model

| member | source | states |
|---|---|---|
| Text.TrimCutsOnlySpace | backend/controllers/job.controller.js:67 | `trim` removes exactly a blank prefix and a blank suffix; what remains starts and ends with a non-space |
| Text.TrimEmptyIffBlank | frontend/src/components/Jobs.jsx:16 | a string trims to "" exactly when every character is white space |
| Text.TrimOfTrimmed | backend/controllers/job.controller.js:67 | trimming a string that neither starts nor ends with white space leaves it unchanged |
| Text.TrimIdempotent | backend/controllers/job.controller.js:90 | trimming twice is trimming once |
| Text.TrimAround | backend/controllers/job.controller.js:67 | blank text around a trimmed core trims to that core |
| Text.LowerIdempotentKeepsSpace | frontend/src/components/Jobs.jsx:14-16 | lower-casing is idempotent, keeps white space where it was, and so keeps a text blank or non-blank |
| Text.ContainsEmpty | backend/controllers/job.controller.js:115-119 | "" occurs in every string, and only "" occurs in "" |
| Text.Split | backend/controllers/job.controller.js:231 | `split(",")` gives one more piece than there are commas, and no piece holds a comma |
| Text.JoinSplit | backend/controllers/job.controller.js:231 | joining the pieces of a split with the separator gives back the input |
| Text.SplitJoin | backend/controllers/job.controller.js:231 | splitting a join of comma-free pieces gives back the pieces |
| Seqs.Keep | frontend/src/components/Jobs.jsx:17-27 | `filter` keeps only elements satisfying the test and never lengthens the list |
| Seqs.KeepExactly | frontend/src/components/Jobs.jsx:17-27 | `filter` keeps each element exactly as often as it occurs when it passes the test, never otherwise, in the original order |
| Seqs.KeepMembership | frontend/src/components/admin/AdminJobsTable.jsx:24-28 | an element is in the filtered list exactly when it is in the list and passes the test |
| Seqs.KeepAll | frontend/src/components/admin/AdminJobsTable.jsx:25 | a test every element passes leaves the list unchanged |
| JobController.DecimalValue | backend/controllers/job.controller.js:50-51 | the decimal spelling of a natural number reads back as that number |
| JobController.NumberOfDigits | backend/controllers/job.controller.js:50-51 | `Number` reads a string of ASCII digits, with or without a leading minus, as its value |
| JobController.NumberOfDecimal | backend/controllers/job.controller.js:50-51 | `Number` applied to the decimal spelling of n gives n, and with a minus sign gives -n |
| JobController.PostMissingFields | backend/controllers/job.controller.js:33-48 | create fails with "missing fields" exactly when a text field is falsy or salary or position is undefined |
| JobController.PostNumberChecks | backend/controllers/job.controller.js:50-65 | with all fields present, salary is rejected first when `Number` gives NaN or a value <= 0, then position the same way; otherwise create succeeds |
| JobController.PostRequirementsNormalized | backend/controllers/job.controller.js:67 | stored requirements: comma count + 1 tokens, token k is piece k trimmed, no token holds a comma or surrounding white space |
| JobController.PostRecord | backend/controllers/job.controller.js:83-94 | the created record carries the input texts, normalised requirements, trimmed experience, positive numeric salary and position, the company id, the requester as creator, and the creation time |
| JobController.RequirementsScenarioCreate | backend/controllers/job.controller.js:67 | create stores "Node, SQL , Docker" as ["Node", "SQL", "Docker"] |
| JobController.RequirementsScenarioUpdate | backend/controllers/job.controller.js:231 | update stores "Node, SQL , Docker" as ["Node", " SQL ", " Docker"], spaces kept |
| JobController.UpdateChecksDifferFromCreate | backend/controllers/job.controller.js:212 | a numeric 0 salary fails update's truthiness test while create rejects it as an invalid salary; a text salary "-5" passes update's test and is stored as -5 |
| JobController.EmptyKeywordMatchesAll | backend/controllers/job.controller.js:115-121 | the empty keyword (the default) matches every job |
| JobController.InsertNewest | backend/controllers/job.controller.js:124 | inserting into a list sorted by `createdAt` descending keeps it sorted and adds exactly that entry |
| JobController.JobStore.PostJob | backend/controllers/job.controller.js:33-100 | on a failed check: the check's 400 outcome and no change; otherwise 201 with a fresh id, the checked record inserted under it, the store one larger |
| JobController.JobStore.GetAllJobs | backend/controllers/job.controller.js:113-134 | 200, and the list holds each job whose title or description contains the keyword ignoring case (a missing keyword is "") exactly once, newest first |
| JobController.JobStore.GetAdminJobs | backend/controllers/job.controller.js:158-174 | 200, even when empty, and the list holds each job created by the requester exactly once |
| JobController.JobStore.DeleteJob | backend/controllers/job.controller.js:180-194 | an unknown id gives 404 and no change; a known id is removed and nothing else changes |
| JobController.JobStore.UpdateJob | backend/controllers/job.controller.js:205-247 | 400 and no change unless all nine fields are truthy; 404 and no change for an unknown id; otherwise only that record changes: requirements split untrimmed, salary through `Number`, position and experience as given, creator set to the requester, creation time kept |
| JobController.DeleteTwice | backend/controllers/job.controller.js:182-194 | deleting the same id twice: the second answer is always 404, and only that id is gone |
| JobsView.VisibleJobsExactly | frontend/src/components/Jobs.jsx:12-34 | a blank query shows the whole list unchanged; any other query shows exactly the jobs whose lower-cased title, description or location contains the lower-cased query, in order, with their multiplicities |
| JobsView.NullishAndEmpty | frontend/src/components/Jobs.jsx:14-17 | a missing query shows the whole list; an empty list always shows empty |
| JobsView.MissingFieldsNeverMatch | frontend/src/components/Jobs.jsx:18-20 | a missing field reads as "" and contains no non-empty query; a job missing all three fields is hidden by every non-blank query |
| JobsView.QueryNotTrimmedForMatching | frontend/src/components/Jobs.jsx:16-25 | the query is trimmed only for the blank test: " dev" does not find a job titled "dev" |
| JobsView.ObjectQueryHidesJobs | frontend/src/components/Jobs.jsx:14 | an object as query reads as "[object object]"; a job is shown exactly when it mentions that text |
| AdminJobsTable.FilteredJobsExactly | frontend/src/components/admin/AdminJobsTable.jsx:23-30 | falsy search text keeps all rows; otherwise exactly the rows whose lower-cased title or company name contains the lower-cased text, in order, with their multiplicities |
| AdminJobsTable.UntitledRowsHidden | frontend/src/components/admin/AdminJobsTable.jsx:26-27 | a row with neither title nor company name is hidden by any non-empty search |
| AdminJobsTable.SpaceIsASearch | frontend/src/components/admin/AdminJobsTable.jsx:25-27 | the search " " is not treated as empty: it hides a row titled "dev" of company "acme" |
| AdminJobsTable.DeleteGuard.constructor | frontend/src/components/admin/AdminJobsTable.jsx:18 | no job is being deleted at first |
| AdminJobsTable.DeleteGuard.Click | frontend/src/components/admin/AdminJobsTable.jsx:33-37 | a click starts a delete exactly when that job is not already being deleted and the user confirms; only then is the job marked; nothing is dispatched |
| AdminJobsTable.DeleteGuard.Finish | frontend/src/components/admin/AdminJobsTable.jsx:38-48 | the mark is cleared whatever the reply; the store is told to drop the job only on success |
| AdminJobsTable.OverlappingDeletes | frontend/src/components/admin/AdminJobsTable.jsx:90 | the mark holds one job: when a delete finishes it clears the mark of another delete still running, whose job can then be clicked again |
| FilterCard.With | frontend/src/components/FilterCard.jsx:29-32 | the change sets the chosen key to the value and leaves the other key as it was |
| FilterCard.OptionsListed | frontend/src/components/FilterCard.jsx:8-23 | five locations and nine fields are offered, none empty; the cleared selection chooses nothing |
| FilterCard.FilterCard.constructor | frontend/src/components/FilterCard.jsx:26 | the initial selection is {location: "", field: ""}, already published |
| FilterCard.FilterCard.ChangeHandler | frontend/src/components/FilterCard.jsx:29-40 | sets one key, republishes the selection; choosing an offered value keeps the selection among the offered values |
| FilterCard.FilterCard.ResetFilters | frontend/src/components/FilterCard.jsx:34-40 | from any state the selection becomes {location: "", field: ""} and is republished |
| FilterCard.ResetTwice | frontend/src/components/FilterCard.jsx:34-36 | resetting is idempotent |
| CompanySetup.Validate | frontend/src/components/admin/CompanySetup.jsx:29-45 | each text field has an error, with its message, exactly when it trims to ""; the logo has an error exactly when it is missing or its type is not png/jpeg/jpg/webp, with a different message for each cause; valid exactly when there is no error |
| CompanySetup.AcceptableMeans | frontend/src/components/admin/CompanySetup.jsx:31-42 | the form passes exactly when each text field holds a non-space character and the logo is accepted |
| CompanySetup.WithText | frontend/src/components/admin/CompanySetup.jsx:47-49 | typing into a field changes that field only; the other fields and the logo are kept |
| CompanySetup.FromCompany | frontend/src/components/admin/CompanySetup.jsx:87-95 | a loaded company fills missing texts with "" and clears the logo, so the form cannot pass |
| CompanySetup.CompanySetupForm.constructor | frontend/src/components/admin/CompanySetup.jsx:17-26 | the form starts empty, with no errors shown |
| CompanySetup.CompanySetupForm.ChangeEventHandler | frontend/src/components/admin/CompanySetup.jsx:47-49 | only the named text field changes |
| CompanySetup.CompanySetupForm.ChangeFileHandler | frontend/src/components/admin/CompanySetup.jsx:51-54 | the logo becomes the first chosen file, or none; the texts are kept |
| CompanySetup.CompanySetupForm.LoadCompany | frontend/src/components/admin/CompanySetup.jsx:87-95 | the form is refilled from the loaded company and cannot pass until a logo is chosen |
| CompanySetup.CompanySetupForm.SubmitHandler | frontend/src/components/admin/CompanySetup.jsx:56-65 | the errors shown are those `validate` computes: each text field's message exactly when it trims to "", the logo's missing or wrong-type message exactly when the logo is not accepted; the form is sent exactly when there is no error, otherwise nothing is sent |
| CompanySetup.LoadThenSubmit | frontend/src/components/admin/CompanySetup.jsx:56-58 | submitting a form just loaded from the store sends nothing and shows a logo error |
| Signup.MatchDigitsExactly | frontend/src/components/auth/Signup.jsx:23-25 | the pattern `[0-9]{lo,hi}` over the whole text matches exactly the ASCII digit strings whose length lies between the bounds |
| Signup.FieldRules | frontend/src/components/auth/Signup.jsx:21-27 | a phone number passes exactly when it is 10 or 11 ASCII digits; a password exactly when it has 6 or more characters; a role exactly when it is "student" or "recruiter" |
| Signup.Submission | frontend/src/components/auth/Signup.jsx:50-57 | the submitted record carries the five texts unchanged, with a non-empty name and e-mail, and only the first file, whose type is jpeg, png or jpg; the phone is 10 or 11 digits and the password 6 or more characters |
| Signup.WebpOnlyForLogos | frontend/src/components/auth/Signup.jsx:28-33 | a WebP image is accepted as a company logo and rejected as an avatar |

## Left out

- The persistence layer is not modelled. This covers `populate`, `findById`, `save`, the 500 answers and the
  exceptions behind them. A store fault is not represented.
- `getAllJobs` swallows its errors without answering, so there is nothing to specify for that path.
- `getJobById` is left out.
- Ids are chosen by the store from a counter rather than by the database. `createdAt` is passed in as the
  current time.
- The keyword of `getAllJobs` is a regular expression in the code. It is modelled as a literal substring, so
  regular-expression metacharacters have no special meaning here.
- JobController.ToNumber models `Number()` on integers only. A sign and ASCII digits read as their value,
  the empty or blank text as 0, and anything else as NaN. Decimals, exponents, hexadecimal, `Infinity`,
  booleans, arrays and objects are not modelled, and neither is floating-point rounding.
- Request-body text fields are modelled as present text or absent. Other JSON types in those fields (numbers,
  booleans, objects) are not modelled. In `requirements` (and in create's `experience`) they would make `split`
  or `trim` throw; in title, description, location, jobType or companyId a truthy value of another type passes
  the presence tests and is stored as given, which the model cannot express.
- Each handler of JobController.JobStore is modelled as one atomic step. The code awaits between the lookup and
  the write (`findById`, then `findByIdAndDelete` or `save`), so another request can run in between, for
  instance a second delete of the same id that still answers 200; this interleaving is not captured.
- The handlers' `console.log` and `console.error` output is left out.
- Text.Lower lower-cases ASCII letters only. Vietnamese and other non-ASCII letters keep their case.
- String lengths count characters, not UTF-16 code units. The password's six-character minimum therefore
  differs for text outside the Basic Multilingual Plane.
- Yup's e-mail format check is taken as a parameter of `Signup.EmailOk`.
- react-hook-form's plumbing is left out.
- Rendering, navigation, toasts, axios calls and loading flags are left out.
- The Redux store's reducers (`deleteJobById`, `setSearchedQuery`) are not modelled. AdminJobsTable.DeleteGuard
  records the dispatched `deleteJobById` actions instead of removing the job from a list.
- AdminJobsTable.DeleteGuard.Finish takes the server's reply as a parameter. The request runs between `Click`
  and `Finish`, and several deletes may overlap.
- FilterCard.FilterCard publishes in the same step as the change. In React the effect runs after the render.
- The structured `{location, field}` matching has no implementation in the code, so it is not modelled.
- Login.jsx, ApplicantsTable.jsx and Applicants.jsx are not part of this model. They hold only presence
  checks, HTTP calls and rendering.
- CompanySetup's submission sends the form as multipart data. The model records the sent input, not the
  encoding.
