# Repository search controller — a Dafny model

This project models the request flow of `ReposController` in an ASP.NET MVC
application that looks up a user and the user's repositories through an HTTP
service and shows them on a result page.

- `Search` (form post) checks `ModelState.IsValid`; on failure it stashes the
  ModelState in TempData under `"ModelState"` and redirects to `Home`. Otherwise
  it calls `GetUserAsync(user.Username)`, then `GetReposAsync(ReposUrl)` only
  when the account has a `ReposUrl`, stores the list in TempData under
  `"Repos"`, and redirects to `Result` with route values `Username`,
  `AvatarUrl`, `Location`. A `UserNotFoundException` becomes status 404 and any
  other exception status 500, each with the exception's message.
- `Result` redirects to `Home` on controller `Repos` when the bound model or its
  `Username` is null; otherwise it sets the model's `Repos` to the TempData list
  (or a new empty list) and renders the same model object.
- `Home` copies every error message of every non-null entry of a stashed
  ModelState into the live ModelState (`TransferModelState`).
- `GetName` strips the 10-character `Controller` suffix from a type name, and
  `UserNotFoundException(u)` has the message `"User with " + u + " not found"`.

Layout: `wrappers.dfy` (Option, for nullable references), `extensions.dfy`
(module `ControllerExtensions`), `exceptions.dfy` (module `Exceptions`),
`models.dfy` (module `Models`: the entities, the service as a datatype of its
possible outcomes, the call log entries, TempData and ModelState as maps),
`repos_flow.dfy` (module `ReposFlow`: each action as a function of plain
values, with its properties as postconditions), `repos_controller.dfy` (module
`Controllers`: the class `ReposController` whose methods update its `tempData`
and `modelState` fields and a ghost log of service calls, each proved equal to
its `ReposFlow` function), `repos_flow_properties.dfy` (lemmas relating
several steps).

The service is a parameter: `HttpService` holds, for each argument, what the
awaited call does (`Returned(value)` or `Threw(exception)`). `ModelState.IsValid`
is computed from the ModelState map with the framework's meaning (no entry has
an error); the ModelState that model binding produced is an input of the
constructor.

Two behaviours of the code are worth noting. `Result` redirects only when
`Username` is null (Controllers/ReposController.cs:73), so an empty username
is rendered, although the test `ReposController_Result_RedirectsHome_WhenUsernameIsEmpty`
(RepoControllerTests.cs:143) names the empty case. A search whose account
has no `ReposUrl` skips the write at Controllers/ReposController.cs:46-50, so a
`"Repos"` entry left by an earlier request survives and `Result` shows it
(`ReposFlowProperties.SearchWithoutReposUrlKeepsEarlierRepos`).

## Model

| member | source | states |
|---|---|---|
| `ControllerExtensions.GetName` | Extensions/ControllerExtensions.cs:7-11 | needs a name of at least 10 characters; the result is a prefix of the type's name, 10 characters shorter |
| `ControllerExtensions.GetNameStripsControllerSuffix` | Extensions/ControllerExtensions.cs:7-11 | for a name ending in "Controller", GetName(t) + "Controller" is the name again |
| `ControllerExtensions.GetNameOfSuffixed` | Extensions/ControllerExtensions.cs:9-10 | appending "Controller" to any name and applying GetName gives the name back |
| `ControllerExtensions.ReposControllerName` | Controllers/ReposController.cs:75 | the controller name used in the redirect, `typeof(ReposController).GetName()`, is "Repos" in any namespace |
| `ControllerExtensions.GetNameDependsOnNameOnly` | Extensions/ControllerExtensions.cs:9-10 | GetName reads only the type's simple name: types in different namespaces with equal names get equal results |
| `Exceptions.UserNotFoundMessage` | Exceptions/UserNotFoundException.cs:7-9 | the message is 20 characters longer than the username, starts with "User with ", ends with " not found" and holds the username in between |
| `Exceptions.UserNotFoundMessageContainsUsername` | Exceptions/UserNotFoundException.cs:8 | the message contains the username as a substring |
| `Exceptions.UserNotFoundMessageRoundTrip` | Exceptions/UserNotFoundException.cs:8 | parsing the message of `UserNotFoundException(u)` gives back u |
| `Exceptions.ParseUserNotFoundMessageSound` | Exceptions/UserNotFoundException.cs:8 | every text the parser accepts is exactly the message for the username it reads |
| `Exceptions.UserNotFoundMessageInjective` | Exceptions/UserNotFoundException.cs:8 | different usernames give different messages |
| `Models.GitHubUserResult.constructor` | Controllers/ReposController.cs:52-57 | the view model gets the account's name as Username, its avatar URL and location; Repos starts null |
| `Models.RouteValuesOf` | Controllers/ReposController.cs:52-59 | the redirect's route values are exactly Username, AvatarUrl and Location, with the view model's values; both the controller and `SearchSpec` build them with this one function |
| `ReposFlow.CatchResult` | Controllers/ReposController.cs:61-68 | an exception becomes an HTTP status result with the exception's message; 404 exactly for UserNotFoundException, 500 for every other exception |
| `ReposFlow.SearchSpec` | Controllers/ReposController.cs:34-69 | invalid ModelState: stash it under "ModelState", redirect to Home, no call; valid: exactly one GetUserAsync with the username, first; GetReposAsync exactly when a ReposUrl came back, with that URL; the fetched list stored unchanged under "Repos"; no ReposUrl leaves TempData as it was; success redirects to Result with Username = Name, AvatarUrl, Location; failures of either call go through the catch clauses; every error response leaves TempData unchanged |
| `ReposFlow.ReposOrEmpty` | Controllers/ReposController.cs:78-85 | the list shown is the TempData "Repos" list when the key is present and the empty list otherwise |
| `ReposFlow.Transferred` | Controllers/ReposController.cs:90-104 | after the transfer each key holds its own messages followed by every stashed message of that key; a key appears only if it was live or had a stashed message, so null Errors are skipped |
| `ReposFlow.TransferredOverOneMore` | Controllers/ReposController.cs:92-103 | handling one more stashed key adds that key's messages to that key alone, and nothing when it has none |
| `Controllers.ReposController.constructor` | Controllers/ReposController.cs:17-20 | stores the injected service; TempData and ModelState are the framework's; no call made yet |
| `Controllers.ReposController.Home` | Controllers/ReposController.cs:22-30 | returns the Home view; with a stashed ModelState the live one becomes `Transferred` of it; without one ModelState is unchanged; TempData and the call log are untouched |
| `Controllers.ReposController.Search` | Controllers/ReposController.cs:34-69 | the returned result, the new TempData and the calls appended to the log are those of `SearchSpec`; ModelState is untouched |
| `Controllers.ReposController.Result` | Controllers/ReposController.cs:71-88 | null model or Username: redirect to Home on controller "Repos" (GetName of ReposController) with the model unchanged; otherwise a view of the same object, its Repos set to `ReposOrEmpty(TempData)` (never null) and its other fields unchanged; TempData is never changed |
| `Controllers.ReposController.TransferModelState` | Controllers/ReposController.cs:90-104 | the nested loops over keys and messages leave ModelState equal to `Transferred(old ModelState, stash)` |
| `Controllers.ReposController.AddModelError` | Controllers/ReposController.cs:101 | appends the message to the key's errors, creating the entry for a new key |
| `ReposFlowProperties.SearchThenResultShowsFetchedRepos` | Controllers/ReposController.cs:46-59 | a search that fetched repositories redirects to Result, and Result then shows exactly the fetched list, in its order |
| `ReposFlowProperties.SearchWithoutReposUrlKeepsEarlierRepos` | Controllers/ReposController.cs:46-50 | without a ReposUrl the "Repos" entry is not touched: Result shows an empty list if there was none and the earlier list otherwise |
| `ReposFlowProperties.InvalidSearchThenHomeRestoresErrors` | Controllers/ReposController.cs:36-40 | after a failed validation, Home's ModelState holds each key's own messages followed by the stashed ones, and is invalid |
| `ReposFlowProperties.TransferKeepsEveryError` | Controllers/ReposController.cs:94-102 | every message of every stashed entry with non-null Errors is present under its key afterwards |
| `ReposFlowProperties.TransferWithoutMessagesChangesNothing` | Controllers/ReposController.cs:92-103 | a stash with no messages leaves ModelState exactly as it was |
| `ReposFlowProperties.NotFoundResponseNamesUser` | Controllers/ReposController.cs:61-64 | a missing account gives 404 with the not-found message, which contains the username |
| `ReposFlowProperties.OtherFailureResponseKeepsMessage` | Controllers/ReposController.cs:65-68 | any other exception gives 500 with its own message |

## Left out

- The HTTP service implementation (`GetUserAsync`, `GetReposAsync`: network I/O and JSON parsing) is not part of this model; each call is replaced by its possible outcomes. A service that returns a null account or a null list (which would end in a `NullReferenceException` and a 500, or a null `Repos`) is not modelled.
- `async`/`await`: each awaited call is one sequential step.
- ASP.NET MVC machinery: view rendering, `[HttpPost]`, `[ValidateAntiForgeryToken]`, model binding and the validation that fills ModelState (its result is a constructor input), and the internals of `RedirectToAction`. The redirect keeps the action name in its own field rather than as the route value `"action"`, and the null `Repos` property of the route object is not listed among the route values.
- TempData's read-once and expiry behaviour belongs to the framework, not this code; TempData is a plain map, so reading `"Repos"` in `Result` does not remove it.
- `TempData["ModelState"] = ModelState` stores a reference to the live dictionary; the model stores its value at that moment, and a stash that is the live dictionary itself (changed while it is enumerated) is not modelled.
- `List<RepoResult>` identity: lists are values, so the reference equality the tests check becomes equality of contents.
- Casts out of TempData (`(List<RepoResult>)`, `(ModelStateDictionary)`) cannot fail here: the class invariant keeps `"Repos"` and `"ModelState"` holding those types.
- Dictionary enumeration order in `TransferModelState`: keys are taken in any order; the resulting ModelState does not depend on it.
- Exception types other than `UserNotFoundException` are collapsed into one case carrying the message.
- `ControllerExtensions.GetName`: names shorter than 10 characters make `Substring` throw; the model makes that a precondition.
- `ControllerExtensions.GetName`: C# string lengths and `Substring` count UTF-16 code units, while the model's strings count Unicode scalar values; for a type name with characters outside the Basic Multilingual Plane the model's result differs from the source's. Type names here are ASCII, so the model does not track code units.
- `ReposFlow.Transferred`, `Models.ModelStateDictionary`, `Models.TempDataDictionary`: the framework's `ModelStateDictionary` and `TempDataDictionary` compare keys ignoring case (`StringComparer.OrdinalIgnoreCase`), while the model's maps compare keys exactly. So a stashed `"Username"` error lands in a separate entry from a live `"username"` entry in the model, where `AddModelError` would append it to the existing entry. Case-insensitive key matching is not modelled.
- `Models.User`, `ReposFlow.SearchSpec`: the bound `user` parameter is never null in the model. In the source, `Search(null)` with a valid ModelState throws a `NullReferenceException` at `user.Username` inside the `try`, which the general catch answers with 500. The model does not capture that path.
- The test class (Moq/MSTest harness) is not modelled; its assertions are covered by the lemmas above.
