# Backoffice login, registration and user-block logic in Dafny

This project models the three screens of the ClassConnect backoffice front-end that
hold deterministic logic:

- **Login** (`LoginForm`): field validation, the mapping from a failing HTTP status to
  an error message, the routing of that message by substring to what the page shows,
  the search for a token across two header lookups and seven body locations, the
  `"Bearer "` normalisation and the write to `localStorage["token"]`.
- **Register** (`Register`): the same validation, the submit gate in front of the
  `onSubmit` prop, and the per-field error clearing in the inputs' `onChange`.
- **UserAdmin** (`UserAdmin`): the in-memory user list that starts from three mock
  users, the `toggleBlock` map that negates one user's blocked flag, and the title of
  the toast it shows.

Modules:

- `Wrappers`: `Option`.
- `JsText`: the JavaScript string primitives the pages use: `includes`,
  `startsWith`, the decimal rendering of a number in a template literal, the `\s`
  class of regular expressions, and `length` counted in UTF-16 code units.
- `Credentials`: the email rule and the password rule. Both pages declare an identical
  `validate`. The rule, its two error texts and the submit gate are defined once here.
  The regular expression `/^[^\s@]+@[^\s@]+\.[^\s@]+$/` is given two definitions: a
  literal reading (three non-empty `[^\s@]` runs joined by `@` and `.`) and a check on
  the string (a single `@`, no whitespace, a non-empty local part, and a domain dot
  that is neither first nor last). The two are proved equivalent.
- `LoginPage`, `RegisterPage`, `UserAdminPage`: one module per page, each with a class
  holding the page's state. The class methods are proved against the module's pure
  functions.

`handleSubmit` on the login page is asynchronous. The model splits it at its `await`
into `BeginSubmit` (the click) and `FinishSubmit` (the continuation once `fetch`
settles). The posted body is captured at the click and handed to the continuation,
as the closure does. What `fetch` and `response.json()` produce is an input (`Reply`,
`Payload`). A rejection carries its error message, so the "Failed to fetch" route is
an input case.

## Model

| member | source | states |
|---|---|---|
| `Credentials.EmailValid` | backoffice/src/pages/Login.tsx:48-50 | the check on the string; an accepted email has at least five characters (the shortest match is `a@b.c`) |
| `Credentials.AcceptedEmailMatches` | backoffice/src/pages/Login.tsx:48-50 | an email the check accepts has a split the regex can match: at its first "@" and at an inner dot of the domain |
| `Credentials.MatchingEmailAccepted` | backoffice/src/pages/Login.tsx:48-50 | every split the regex can match puts its "@" at the first "@", so the check accepts the email |
| `Credentials.EmailValidIffRegex` | backoffice/src/pages/Login.tsx:48-50 | the email check accepts a string exactly when `/^[^\s@]+@[^\s@]+\.[^\s@]+$/` matches it, read as a split into local part, domain head and domain tail |
| `Credentials.AcceptanceRule` | backoffice/src/pages/Login.tsx:46-65 | `validate` returns true exactly when the regex matches the email and the password is at least 4 UTF-16 code units long |
| `Credentials.EmailErrorFor` | backoffice/src/pages/Login.tsx:50-55 | the email error is `""` exactly when the email is valid, and "Email is invalid" otherwise; it depends on the email alone |
| `Credentials.PasswordErrorFor` | backoffice/src/pages/Login.tsx:57-62 | the password error is `""` exactly when the password is at least 4 long, and "Password must be at least 4 characters" otherwise; it depends on the password alone |
| `Credentials.SubmitGate` | backoffice/src/pages/Register.tsx:46-51 | the current `{email, password}` goes out exactly when the credential rule holds, and nothing goes out otherwise |
| `Credentials.SampleCredentialsAccepted` | backoffice/src/pages/Login.tsx:320-325 | the test credentials the error modal displays (admin@example.com / admin1234) pass `validate` |
| `Credentials.NoAtRefused` | backoffice/src/pages/Login.tsx:48-50 | every email that holds no "@" is refused |
| `Credentials.EmptyLocalRefused` | backoffice/src/pages/Login.tsx:48-50 | every email that starts with "@" (empty local part) is refused |
| `Credentials.NoDomainDotRefused` | backoffice/src/pages/Login.tsx:48-50 | every email with an "@" after which no "." follows is refused |
| `Credentials.EdgeDotsRefused` | backoffice/src/pages/Login.tsx:48-50 | every email with an "@" after which a "." stands only as the first or last character of the domain is refused |
| `Credentials.SecondAtRefused` | backoffice/src/pages/Login.tsx:48-50 | every email holding two "@", at any positions, is refused |
| `Credentials.WhitespaceRefused` | backoffice/src/pages/Login.tsx:48-50 | every email holding a `\s` character at any position is refused |
| `Credentials.ShortPasswordRefused` | backoffice/src/pages/Login.tsx:57 | every password of fewer than 4 characters, all in the Basic Multilingual Plane, is refused |
| `Credentials.AstralPasswordAccepted` | backoffice/src/pages/Login.tsx:57 | `length` counts UTF-16 code units: a password of two characters outside the Basic Multilingual Plane counts 4 and passes |
| `JsText.IsJsWhitespace` | backoffice/src/pages/Login.tsx:48 | the `\s` class: ECMAScript WhiteSpace and LineTerminator; none of them is "@" or ".", and each is one UTF-16 code unit |
| `JsText.Utf16Length` | backoffice/src/pages/Login.tsx:57 | `password.length` counts UTF-16 code units: between one and two per character |
| `JsText.Utf16LengthBmp` | backoffice/src/pages/Login.tsx:57 | on Basic Multilingual Plane text `length` is the character count |
| `JsText.DecimalString` | backoffice/src/pages/Login.tsx:94 | the status renders as a non-empty string of digits, with no leading zero unless it is the single digit "0" |
| `JsText.DecimalCanonical` | backoffice/src/pages/Login.tsx:94 | the rendering is the only numeral of a number without a leading zero, so the digits in the message are determined by the status |
| `JsText.DecimalRoundTrip` | backoffice/src/pages/Login.tsx:94 | the rendered status reads back as the same number |
| `LoginPage.IsOk` | backoffice/src/pages/Login.tsx:86 | `response.ok` is the 200-299 range, which holds none of 401, 404 and 500 |
| `LoginPage.StatusMessage` | backoffice/src/pages/Login.tsx:86-96 | each of the three fixed messages is thrown for exactly its own status (401, 404, 500), never for another one |
| `LoginPage.Route` | backoffice/src/pages/Login.tsx:171-206 | the modal opens exactly when the message includes "Credenciales inválidas", and a toast is shown exactly when it does not |
| `LoginPage.UnauthorizedRoute` | backoffice/src/pages/Login.tsx:87-88 | a 401 sets "Las credenciales ingresadas no son válidas", opens the modal and shows no toast |
| `LoginPage.NotFoundRoute` | backoffice/src/pages/Login.tsx:89-90 | a 404 sets the server-unavailable text with the "Servidor no disponible" toast |
| `LoginPage.ServerErrorRoute` | backoffice/src/pages/Login.tsx:91-92 | a 500 matches no marker, so "Error interno del servidor" is shown as it is with an "Error" toast |
| `LoginPage.OtherStatusMessage` | backoffice/src/pages/Login.tsx:93-95 | any other failing status gives "Error " + digits + ": " + statusText, where the digits are a numeral of the status without a leading zero, which by `JsText.DecimalCanonical` is its one decimal rendering |
| `LoginPage.OtherStatusRouteFollowsText` | backoffice/src/pages/Login.tsx:94 | for those statuses each marker is in the message exactly when it is in the status text, so the status text alone decides the route: the credentials, not-found and fetch routes by the first of the three markers, in the `catch` block's order, that the text holds, and a text with none is shown as the whole "Error <status>: <statusText>" message with an "Error" toast |
| `LoginPage.FetchFailedRoute` | backoffice/src/pages/Login.tsx:186-195 | a "Failed to fetch" rejection sets the connection text with the "Error de conexión" toast |
| `LoginPage.FirstTruthy` | backoffice/src/pages/Login.tsx:102-139 | the chosen token is the first non-empty candidate, and there is none exactly when no candidate is non-empty |
| `LoginPage.FirstTruthyAppend` | backoffice/src/pages/Login.tsx:104-139 | searching the headers and then the body is searching their concatenation |
| `LoginPage.FirstTruthyIgnoresLater` | backoffice/src/pages/Login.tsx:102-139 | once a candidate is non-empty, the candidates after it do not change the result |
| `LoginPage.LoginForm.FindToken` | backoffice/src/pages/Login.tsx:102-139 | the if/else chain returns the first non-empty of the nine candidates in their fixed order |
| `LoginPage.LoginForm.FindBodyToken` | backoffice/src/pages/Login.tsx:115-138 | the body part of the chain returns the first non-empty of `token`, `accessToken`, `access_token`, `authToken`, `jwt`, `data.token`, `user.token` |
| `LoginPage.BearerToken` | backoffice/src/pages/Login.tsx:143 | the stored form starts with "Bearer "; a candidate that already does is kept unchanged, and any other gets "Bearer " put in front |
| `LoginPage.BearerIdempotent` | backoffice/src/pages/Login.tsx:143 | normalising twice equals normalising once |
| `LoginPage.BearerKeepsCredential` | backoffice/src/pages/Login.tsx:143 | the stored form ends with the whole candidate and adds at most the prefix |
| `LoginPage.Settle` | backoffice/src/pages/Login.tsx:86-139 | the request succeeds only for a 2xx response whose body parses, and then with the first non-empty candidate; a rejection fails with its own message, a non-2xx status with the status message, and an unparsable body with the parser's message |
| `LoginPage.StoredToken` | backoffice/src/pages/Login.tsx:141-146 | a failed request leaves the store as it was, and any value written starts with "Bearer " |
| `LoginPage.StoreWriteRule` | backoffice/src/pages/Login.tsx:141-146 | the store changes only on a 2xx response with a parsed body, then to the Bearer form of the first non-empty candidate; with no candidate it keeps its value; a written value starts with "Bearer " |
| `LoginPage.BearerHeaderScenario` | backoffice/src/pages/Login.tsx:104-108 | an `Authorization: Bearer abc123` header stores "Bearer abc123" |
| `LoginPage.EmptyHeaderSkippedScenario` | backoffice/src/pages/Login.tsx:105-130 | an empty header is skipped and a body `jwt` of "xyz" is stored as "Bearer xyz" |
| `LoginPage.RejectedCredentialsScenario` | backoffice/src/pages/Login.tsx:87-88 | a 401 leaves an empty store empty and opens the invalid-credentials modal |
| `LoginPage.LoginForm.constructor` | backoffice/src/pages/Login.tsx:37-43 | empty fields and errors, not loading, modal closed, the store as found |
| `LoginPage.LoginForm.ChangeEmail` | backoffice/src/pages/Login.tsx:249-253 | editing the email clears the email and login errors and keeps the password error |
| `LoginPage.LoginForm.ChangePassword` | backoffice/src/pages/Login.tsx:273-277 | editing the password clears the password and login errors and keeps the email error |
| `LoginPage.LoginForm.Validate` | backoffice/src/pages/Login.tsx:46-65 | returns the credential rule and sets each error from its own field alone |
| `LoginPage.LoginForm.CloseModal` | backoffice/src/pages/Login.tsx:310 | closing the modal leaves it closed |
| `LoginPage.LoginForm.BeginSubmit` | backoffice/src/pages/Login.tsx:67-75 | clears the login error and validates; the body goes out exactly when the fields are valid, and only then is the loading flag raised |
| `LoginPage.LoginForm.FinishSubmit` | backoffice/src/pages/Login.tsx:77-209 | the store becomes the stored-token function of the reply; on success a toast, the `onSubmit` call and the redirect; on failure the routed error view; the loading flag ends false |
| `LoginPage.LoginForm.HandleSubmit` | backoffice/src/pages/Login.tsx:67-210 | invalid fields leave the store, the loading flag, the modal, the toasts, the callbacks and the redirect unchanged with an empty login error; valid fields end with the stored-token function of the reply and the loading flag down, and then on success with an empty login error, the success toast, `onSubmit` called with the fields and the redirect scheduled, and on failure with the routed error view and no callback or redirect |
| `RegisterPage.Register.constructor` | backoffice/src/pages/Register.tsx:20-23 | empty fields and errors, nothing submitted |
| `RegisterPage.Register.ChangeEmail` | backoffice/src/pages/Register.tsx:72-75 | editing the email clears only the email error |
| `RegisterPage.Register.ChangePassword` | backoffice/src/pages/Register.tsx:94-97 | editing the password clears only the password error |
| `RegisterPage.Register.Validate` | backoffice/src/pages/Register.tsx:25-44 | the same rule as the login page's `validate`; result and both errors are functions of email and password alone, so a repeated call agrees |
| `RegisterPage.Register.HandleSubmit` | backoffice/src/pages/Register.tsx:46-51 | `onSubmit` receives the current `{email, password}` exactly once when valid and is not called otherwise |
| `UserAdminPage.ToggleMap` | backoffice/src/pages/UserAdmin.tsx:36-40 | length and order kept; id, name and email kept; the blocked flag negated exactly on the records with the id |
| `UserAdminPage.ToggleMapKeepsOthers` | backoffice/src/pages/UserAdmin.tsx:38 | a record with another id comes out identical |
| `UserAdminPage.ToggleMapAbsent` | backoffice/src/pages/UserAdmin.tsx:38 | toggling an id no record has leaves the list unchanged |
| `UserAdminPage.ToggleMapInvolution` | backoffice/src/pages/UserAdmin.tsx:35-40 | toggling the same id twice restores the list |
| `UserAdminPage.ToggleMapChangesOne` | backoffice/src/pages/UserAdmin.tsx:36-40 | with distinct ids, toggling a present id changes exactly one record, the one with that id |
| `UserAdminPage.ToggleMapKeepsIds` | backoffice/src/pages/UserAdmin.tsx:38 | the identifiers are unchanged, so distinct identifiers stay distinct |
| `UserAdminPage.Find` | backoffice/src/pages/UserAdmin.tsx:41 | `find` gives the first record with the id, and nothing exactly when no record has it |
| `UserAdminPage.ToastTitle` | backoffice/src/pages/UserAdmin.tsx:43 | the title is one of the two texts, "Usuario desbloqueado" exactly when a record was found and it was blocked |
| `UserAdminPage.ToastTitleRule` | backoffice/src/pages/UserAdmin.tsx:41-47 | the title is "Usuario desbloqueado" exactly when the first record with the id was blocked before the toggle, and "Usuario bloqueado" otherwise, a missing id included |
| `UserAdminPage.ToastTitleDescribesNewState` | backoffice/src/pages/UserAdmin.tsx:41-47 | when the id is present the title names the state the toggle leaves that record in |
| `UserAdminPage.MockUsers` | backoffice/src/pages/UserAdmin.tsx:25-29 | three users with distinct ids |
| `UserAdminPage.MockUsersShape` | backoffice/src/pages/UserAdmin.tsx:25-29 | the mock users have ids 1, 2 and 3, all distinct, and only user 2 starts blocked |
| `UserAdminPage.UserAdmin.constructor` | backoffice/src/pages/UserAdmin.tsx:32 | the list starts as the mock users, with no toasts |
| `UserAdminPage.UserAdmin.ToggleBlock` | backoffice/src/pages/UserAdmin.tsx:35-48 | keeps distinct ids as the page's invariant; the list becomes its toggled copy, so a present id changes exactly one record; the toast title is chosen from the list before the toggle |

## Left out

- The `fetch` call and `response.json()` are inputs to the model. The endpoint URL, the request headers and JSON encoding are not modelled.
- `setTimeout` and `navigate("/home")` are one flag, `redirectScheduled`. Toasts are recorded by title only. The modal widget is the flag `modalOpen`. Chakra rendering and the `console` calls are not modelled.
- `localStorage` is the single field `LoginForm.token`. Persistence across reloads is not modelled.
- The two header lookups are separate inputs, as the code writes them. The browser's case-insensitive header lookup makes them equal in practice.
- Token candidates are strings. A JSON body whose token field holds a number or object would make `startsWith` throw, and that case is not modelled. A body of `null` is not modelled either.
- `error instanceof Error ? … : "Error desconocido"` is not modelled: every error that can reach the `catch` block is an `Error`.
- `LoginPage.LoginForm.HandleSubmit`: runs the two halves back to back. Requests that overlap, and edits made while a request is in flight, are not modelled. On invalid fields the loading flag keeps its previous value (false unless an earlier request is still pending), as the code does not touch it.
- `LoginPage.LoginForm.HandleSubmit`: both inputs sit in a required `FormControl` and the email input has `type="email"`, in a `<form>` without `noValidate`. The browser's own constraint validation can therefore block the submit before the handler runs, when a field is empty or the email is not an HTML email address (such as "abc"). That validation is not modelled: the model runs the handler, and so `Validate`, on every submit. The page's own "Email is invalid" text is then reached only by addresses the browser accepts and the regular expression refuses, such as "admin@localhost".
- `RegisterPage.Register.HandleSubmit`: the same browser constraint validation applies to the registration form. It is not modelled either: the model runs the handler on every submit.
- `UserAdminPage.UserAdmin.ToggleBlock`: `setUsers` takes an updater over the pending state, while `find` reads the list of the last render. In this sequential model the two lists are the same. It also requires the distinct-ids invariant `Valid()`, which the constructor establishes from `mockUsers` and every toggle keeps; no other code path builds the list.
- The regular expression runs over UTF-16 code units (no `u` flag), while the model runs it over characters. Surrogate halves are neither whitespace nor "@", so the verdict is the same.
- Pagination, role changes and the server-side block request are not part of `UserAdmin.tsx` and are not modelled. `Home.tsx`, `Metrics.tsx`, `Sidebar.tsx`, `LayoutWithSidebar.tsx` and `App.tsx` hold no logic and are not part of this model.
