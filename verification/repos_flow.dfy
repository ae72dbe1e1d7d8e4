/** The request flow of the repository search controller as functions of
    plain values: what `Search` returns and leaves in TempData, which service
    calls it makes, what `Result` shows, and what `Home` adds to ModelState. */
module ReposFlow {
  import opened Wrappers
  import opened Exceptions
  import opened ControllerExtensions
  import opened Models

  const HomeAction: string := "Home"
  const ResultAction: string := "Result"
  const ReposControllerType: Type := Type("AccreditAssessment.Controllers", "ReposController")

  /** The error messages stored under `key`; none when the key is absent or
      its entry or `Errors` collection is null. */
  function ErrorsOf(modelState: ModelStateDictionary, key: string): seq<string>
  {
    if key in modelState && modelState[key].Some? then modelState[key].value else []
  }

  /** `ModelState.IsValid`: no entry holds an error. */
  predicate IsValid(modelState: ModelStateDictionary)
  {
    forall key | key in modelState :: |ErrorsOf(modelState, key)| == 0
  }

  /** Entries the framework creates always have an `Errors` collection. */
  ghost predicate LiveModelState(modelState: ModelStateDictionary)
  {
    forall key | key in modelState :: modelState[key].Some?
  }

  /** The two TempData keys the controller uses hold the objects it casts them to. */
  ghost predicate WellTypedTempData(tempData: TempDataDictionary)
  {
    && (ModelStateKey in tempData ==> tempData[ModelStateKey].ModelStateValue?)
    && (ReposKey in tempData ==> tempData[ReposKey].ReposValue?)
  }

  /** The two catch clauses of `Search`, tried in order: the typed not-found
      exception first, then every other exception. */
  function CatchResult(ex: Exception): (r: ActionResult)
    ensures r.HttpStatusCodeResult?
    ensures r.statusCode == 404 <==> ex.UserNotFoundException?
    ensures r.statusCode == 500 <==> !ex.UserNotFoundException?
    ensures r.statusDescription == ex.Message()
  {
    match ex
    case UserNotFoundException(_) => HttpStatusCodeResult(404, ex.Message())
    case _ => HttpStatusCodeResult(500, ex.Message())
  }

  /** The redirect a successful search issues: the account's name, avatar
      and location as the `GitHubUserResult` route values. */
  function RedirectToResult(account: UserResult): ActionResult
  {
    RedirectToRouteResult(ResultAction, None, RouteValuesOf(account.name, account.avatarUrl, account.location))
  }

  /** What one `Search` request produces: the action result, the new TempData
      and the service calls it made, in order. */
  datatype SearchStep = SearchStep(result: ActionResult, tempData: TempDataDictionary, calls: seq<ServiceCall>)

  /** The `Search` action. */
  function SearchSpec(modelState: ModelStateDictionary, tempData: TempDataDictionary, user: User, service: HttpService): (o: SearchStep)
    // invalid input: stash the model state, go back to Home, call nothing
    ensures !IsValid(modelState) ==>
      && o.result == RedirectToRouteResult(HomeAction, None, map[])
      && o.tempData == tempData[ModelStateKey := ModelStateValue(modelState)]
      && o.calls == []
    // valid input: exactly one account lookup, first, with the submitted username
    ensures IsValid(modelState) ==> 1 <= |o.calls| <= 2 && o.calls[0] == GetUserAsync(user.username)
    // a repository lookup happens exactly when the account came back with a ReposUrl, and uses that URL
    ensures var account := service.getUserAsync(user.username);
      IsValid(modelState) ==>
        (|o.calls| == 2 <==> account.Returned? && account.value.reposUrl.Some?)
    ensures var account := service.getUserAsync(user.username);
      |o.calls| == 2 ==> o.calls[1] == GetReposAsync(account.value.reposUrl.value)
    // the fetched list is stored under "Repos" as it was returned
    ensures var account := service.getUserAsync(user.username);
      IsValid(modelState) && account.Returned? && account.value.reposUrl.Some?
      && service.getReposAsync(account.value.reposUrl.value).Returned? ==>
        o.tempData == tempData[ReposKey := ReposValue(service.getReposAsync(account.value.reposUrl.value).value)]
    // no ReposUrl: no repository call and TempData untouched
    ensures var account := service.getUserAsync(user.username);
      IsValid(modelState) && account.Returned? && account.value.reposUrl.None? ==>
        |o.calls| == 1 && o.tempData == tempData
    // success is a redirect to Result carrying the account's name, avatar and location
    ensures var account := service.getUserAsync(user.username);
      IsValid(modelState) && account.Returned?
      && (account.value.reposUrl.None? || service.getReposAsync(account.value.reposUrl.value).Returned?) ==>
        o.result == RedirectToRouteResult(ResultAction, None, map[
          UsernameRouteKey := account.value.name,
          AvatarUrlRouteKey := account.value.avatarUrl,
          LocationRouteKey := account.value.location])
    // a failing account lookup is mapped by the catch clauses, and nothing else is called
    ensures var account := service.getUserAsync(user.username);
      IsValid(modelState) && account.Threw? ==> o.result == CatchResult(account.exception) && |o.calls| == 1
    // so is a failing repository lookup
    ensures var account := service.getUserAsync(user.username);
      IsValid(modelState) && account.Returned? && account.value.reposUrl.Some?
      && service.getReposAsync(account.value.reposUrl.value).Threw? ==>
        o.result == CatchResult(service.getReposAsync(account.value.reposUrl.value).exception)
    // an error response leaves TempData exactly as it was
    ensures o.result.HttpStatusCodeResult? ==> o.tempData == tempData
    // TempData keeps the shapes the controller relies on
    ensures WellTypedTempData(tempData) ==> WellTypedTempData(o.tempData)
  {
    if !IsValid(modelState) then
      SearchStep(RedirectToRouteResult(HomeAction, None, map[]), tempData[ModelStateKey := ModelStateValue(modelState)], [])
    else
      var userCall := [GetUserAsync(user.username)];
      match service.getUserAsync(user.username)
      case Threw(ex) => SearchStep(CatchResult(ex), tempData, userCall)
      case Returned(account) =>
        if account.reposUrl.None? then
          SearchStep(RedirectToResult(account), tempData, userCall)
        else
          var calls := userCall + [GetReposAsync(account.reposUrl.value)];
          match service.getReposAsync(account.reposUrl.value)
          case Threw(ex) => SearchStep(CatchResult(ex), tempData, calls)
          case Returned(repoResults) =>
            SearchStep(RedirectToResult(account), tempData[ReposKey := ReposValue(repoResults)], calls)
  }

  /** The list `Result` puts into the view model: the stored list, or an
      empty one when TempData has none. */
  function ReposOrEmpty(tempData: TempDataDictionary): (repos: seq<RepoResult>)
    requires WellTypedTempData(tempData)
    ensures ReposKey in tempData ==> tempData[ReposKey] == ReposValue(repos)
    ensures ReposKey !in tempData ==> repos == []
  {
    if ReposKey in tempData then tempData[ReposKey].repos else []
  }

  /** The keys of `stash` whose entries carry at least one message: the only
      keys `TransferModelState` calls `AddModelError` for. */
  function KeysWithErrors(stash: ModelStateDictionary, keys: set<string>): set<string>
  {
    set key | key in keys && key in stash && |ErrorsOf(stash, key)| > 0
  }

  /** `live` after the messages of the stashed entries under `keys` have been
      added to it, key by key, in the order they are stored. */
  function TransferredOver(live: ModelStateDictionary, stash: ModelStateDictionary, keys: set<string>): ModelStateDictionary
  {
    map key | key in live.Keys + KeysWithErrors(stash, keys) ::
      Some(ErrorsOf(live, key) + (if key in keys then ErrorsOf(stash, key) else []))
  }

  /** What `TransferModelState(stash)` makes of the live model state. */
  function Transferred(live: ModelStateDictionary, stash: ModelStateDictionary): (r: ModelStateDictionary)
    // every key keeps its own messages, followed by every message stashed under it
    ensures forall key :: ErrorsOf(r, key) == ErrorsOf(live, key) + ErrorsOf(stash, key)
    // no key appears unless it was live or had a stashed message (null Errors are skipped)
    ensures forall key :: key in r <==> key in live || (key in stash && |ErrorsOf(stash, key)| > 0)
    ensures LiveModelState(r)
  {
    TransferredOver(live, stash, stash.Keys)
  }

  /** Before any key is processed the live model state is unchanged. */
  lemma TransferredOverNothing(live: ModelStateDictionary, stash: ModelStateDictionary)
    requires LiveModelState(live)
    ensures TransferredOver(live, stash, {}) == live
  {
    assert KeysWithErrors(stash, {}) == {};
    forall key | key in live
      ensures TransferredOver(live, stash, {})[key] == live[key]
    {
      assert ErrorsOf(live, key) + [] == live[key].value;
    }
  }

  /** A key not yet processed still holds exactly its live messages. */
  lemma TransferredOverUntouched(live: ModelStateDictionary, stash: ModelStateDictionary, done: set<string>, key: string)
    requires key !in done
    ensures ErrorsOf(TransferredOver(live, stash, done), key) == ErrorsOf(live, key)
  {
  }

  /** Processing one more key adds that key's stashed messages and touches no other key. */
  lemma TransferredOverOneMore(live: ModelStateDictionary, stash: ModelStateDictionary, done: set<string>, key: string)
    requires key !in done
    ensures |ErrorsOf(stash, key)| > 0 ==>
      TransferredOver(live, stash, done + {key})
        == TransferredOver(live, stash, done)[key := Some(ErrorsOf(live, key) + ErrorsOf(stash, key))]
    ensures |ErrorsOf(stash, key)| == 0 ==>
      TransferredOver(live, stash, done + {key}) == TransferredOver(live, stash, done)
  {
  }
}
