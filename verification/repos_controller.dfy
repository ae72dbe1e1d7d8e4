/** `ReposController` (Controllers/ReposController.cs) as a class whose
    TempData and ModelState dictionaries are fields its actions update. */
module Controllers {
  import opened Wrappers
  import opened ControllerExtensions
  import opened Models
  import opened ReposFlow

  class ReposController {
    /** The injected lookup service. */
    const httpService: HttpService
    /** The controller's TempData, kept across the redirect. */
    var tempData: TempDataDictionary
    /** The controller's ModelState. */
    var modelState: ModelStateDictionary
    /** Every call made on the service, in order. */
    ghost var calls: seq<ServiceCall>

    ghost predicate Valid()
      reads this
    {
      WellTypedTempData(tempData) && LiveModelState(modelState)
    }

    /** The service is injected; TempData and ModelState are whatever the
        framework hands this request. */
    constructor (usernameService: HttpService, tempData: TempDataDictionary, modelState: ModelStateDictionary)
      requires WellTypedTempData(tempData) && LiveModelState(modelState)
      ensures Valid()
      ensures httpService == usernameService && this.tempData == tempData && this.modelState == modelState
      ensures calls == []
    {
      httpService := usernameService;
      this.tempData := tempData;
      this.modelState := modelState;
      calls := [];
    }

    /** The landing page: restores the errors a failed search stashed. */
    method Home() returns (r: ActionResult)
      requires Valid()
      modifies this`modelState
      ensures Valid()
      ensures r == ViewResult(null)
      ensures ModelStateKey in tempData ==>
        modelState == Transferred(old(modelState), tempData[ModelStateKey].modelState)
      ensures ModelStateKey !in tempData ==> modelState == old(modelState)
    {
      if ModelStateKey in tempData {
        TransferModelState(tempData[ModelStateKey].modelState);
      }
      r := ViewResult(null);
    }

    /** The form post: validate, look up the account and its repositories,
        and redirect or report the failure. */
    method Search(user: User) returns (result: ActionResult)
      requires Valid()
      modifies this`tempData, this`calls
      ensures Valid()
      ensures var o := SearchSpec(modelState, old(tempData), user, httpService);
        result == o.result && tempData == o.tempData && calls == old(calls) + o.calls
    {
      if !IsValid(modelState) {
        tempData := tempData[ModelStateKey := ModelStateValue(modelState)];
        return RedirectToRouteResult(HomeAction, None, map[]);
      }

      var userOutcome := httpService.getUserAsync(user.username);
      calls := calls + [GetUserAsync(user.username)];
      if userOutcome.Threw? {
        return CatchResult(userOutcome.exception);
      }
      var userResult := userOutcome.value;

      if userResult.reposUrl.Some? {
        var reposOutcome := httpService.getReposAsync(userResult.reposUrl.value);
        calls := calls + [GetReposAsync(userResult.reposUrl.value)];
        if reposOutcome.Threw? {
          return CatchResult(reposOutcome.exception);
        }
        tempData := tempData[ReposKey := ReposValue(reposOutcome.value)];
      }

      var gitHubUserResult := new GitHubUserResult(userResult.name, userResult.avatarUrl, userResult.location);
      result := RedirectToRouteResult(ResultAction, None, gitHubUserResult.RouteValues());
    }

    /** The result page: fills in the repositories of the bound view model. */
    method Result(userResult: GitHubUserResult?) returns (r: ActionResult)
      requires Valid()
      modifies userResult
      // no username: back to Home on this controller, the model untouched
      ensures userResult == null || old(userResult.username).None? ==>
        r == RedirectToRouteResult(HomeAction, Some("Repos"), map[])
      ensures userResult != null && old(userResult.username).None? ==> unchanged(userResult)
      // a username: the same object is rendered, with Repos set and never null
      ensures userResult != null && old(userResult.username).Some? ==>
        && r == ViewResult(userResult)
        && userResult.repos == Some(ReposOrEmpty(tempData))
        && userResult.username == old(userResult.username)
        && userResult.avatarUrl == old(userResult.avatarUrl)
        && userResult.location == old(userResult.location)
    {
      if userResult == null || userResult.username.None? {
        ReposControllerName(ReposControllerType.namespace);
        return RedirectToRouteResult(HomeAction, Some(GetName(ReposControllerType)), map[]);
      }

      if ReposKey in tempData {
        userResult.repos := Some(tempData[ReposKey].repos);
      } else {
        userResult.repos := Some([]);
      }
      r := ViewResult(userResult);
    }

    /** Copies every error message of every non-null entry of `stash` into
        ModelState. */
    method TransferModelState(stash: ModelStateDictionary)
      requires Valid()
      modifies this`modelState
      ensures Valid()
      ensures modelState == Transferred(old(modelState), stash)
    {
      ghost var live := modelState;
      var keys := stash.Keys;
      ghost var done: set<string> := {};
      TransferredOverNothing(live, stash);
      while keys != {}
        invariant keys !! done && keys + done == stash.Keys
        invariant modelState == TransferredOver(live, stash, done)
        invariant Valid()
        decreases keys
      {
        var key :| key in keys;
        if stash[key].Some? {
          var messages := stash[key].value;
          var i := 0;
          while i < |messages|
            invariant 0 <= i <= |messages|
            invariant modelState ==
              if i == 0 then TransferredOver(live, stash, done)
              else TransferredOver(live, stash, done)[key := Some(ErrorsOf(live, key) + messages[..i])]
            invariant Valid()
          {
            TransferredOverUntouched(live, stash, done, key);
            AddModelError(key, messages[i]);
            assert messages[..i + 1] == messages[..i] + [messages[i]];
            assert ErrorsOf(live, key) + messages[..i + 1] == ErrorsOf(live, key) + messages[..i] + [messages[i]];
            i := i + 1;
          }
          assert messages[..i] == messages;
        }
        TransferredOverOneMore(live, stash, done, key);
        keys := keys - {key};
        done := done + {key};
      }
    }

    /** `ModelState.AddModelError`: appends the message to the key's entry,
        creating the entry when the key is new. */
    method AddModelError(key: string, errorMessage: string)
      requires Valid()
      modifies this`modelState
      ensures Valid()
      ensures modelState == old(modelState)[key := Some(ErrorsOf(old(modelState), key) + [errorMessage])]
    {
      modelState := modelState[key := Some(ErrorsOf(modelState, key) + [errorMessage])];
    }
  }
}
