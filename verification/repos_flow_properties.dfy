/** Properties that relate several steps of the flow: a search followed by
    the result page, a failed validation followed by the landing page, and
    the error responses. */
module ReposFlowProperties {
  import opened Exceptions
  import opened Models
  import opened ReposFlow

  /** A search that fetched repositories hands exactly that list, in its
      order, to the result page. */
  lemma SearchThenResultShowsFetchedRepos(modelState: ModelStateDictionary, tempData: TempDataDictionary, user: User, service: HttpService)
    requires WellTypedTempData(tempData) && IsValid(modelState)
    requires service.getUserAsync(user.username).Returned?
    requires service.getUserAsync(user.username).value.reposUrl.Some?
    requires service.getReposAsync(service.getUserAsync(user.username).value.reposUrl.value).Returned?
    ensures var o := SearchSpec(modelState, tempData, user, service);
      && o.result.RedirectToRouteResult? && o.result.action == ResultAction
      && WellTypedTempData(o.tempData)
      && ReposOrEmpty(o.tempData)
         == service.getReposAsync(service.getUserAsync(user.username).value.reposUrl.value).value
  {
  }

  /** A search whose account has no ReposUrl does not touch the "Repos"
      entry: the result page shows an empty list when there was none, and
      whatever list an earlier request left behind otherwise. */
  lemma SearchWithoutReposUrlKeepsEarlierRepos(modelState: ModelStateDictionary, tempData: TempDataDictionary, user: User, service: HttpService)
    requires WellTypedTempData(tempData) && IsValid(modelState)
    requires service.getUserAsync(user.username).Returned?
    requires service.getUserAsync(user.username).value.reposUrl.None?
    ensures var o := SearchSpec(modelState, tempData, user, service);
      && WellTypedTempData(o.tempData)
      && (ReposKey !in tempData ==> ReposOrEmpty(o.tempData) == [])
      && (ReposKey in tempData ==> ReposOrEmpty(o.tempData) == tempData[ReposKey].repos)
  {
  }

  /** After a search failed validation, the landing page's ModelState holds
      every stashed message after its own, and is invalid in turn. */
  lemma InvalidSearchThenHomeRestoresErrors(
    modelState: ModelStateDictionary, tempData: TempDataDictionary, user: User, service: HttpService,
    live: ModelStateDictionary)
    requires !IsValid(modelState)
    ensures var o := SearchSpec(modelState, tempData, user, service);
      && ModelStateKey in o.tempData && o.tempData[ModelStateKey].ModelStateValue?
      && (forall key :: ErrorsOf(Transferred(live, o.tempData[ModelStateKey].modelState), key)
                        == ErrorsOf(live, key) + ErrorsOf(modelState, key))
      && !IsValid(Transferred(live, o.tempData[ModelStateKey].modelState))
  {
  }

  /** Every message of every stashed entry whose `Errors` is not null ends up
      in ModelState under the same key. */
  lemma TransferKeepsEveryError(live: ModelStateDictionary, stash: ModelStateDictionary, key: string, i: nat)
    requires key in stash && stash[key].Some? && i < |stash[key].value|
    ensures var r := Transferred(live, stash);
      key in r && r[key].Some? && stash[key].value[i] in r[key].value
  {
  }

  /** A stash without messages (empty or null `Errors` only) leaves ModelState as it was. */
  lemma TransferWithoutMessagesChangesNothing(live: ModelStateDictionary, stash: ModelStateDictionary)
    requires LiveModelState(live)
    requires forall key | key in stash :: |ErrorsOf(stash, key)| == 0
    ensures Transferred(live, stash) == live
  {
    var r := Transferred(live, stash);
    forall key | key in live
      ensures r[key] == live[key]
    {
      assert ErrorsOf(r, key) == ErrorsOf(live, key) + ErrorsOf(stash, key);
      assert ErrorsOf(stash, key) == [];
      assert ErrorsOf(live, key) + [] == live[key].value;
      assert key in r && r[key].Some?;
    }
  }

  /** A missing account is answered with 404 and a message naming the user. */
  lemma NotFoundResponseNamesUser(username: string)
    ensures var r := CatchResult(UserNotFoundException(username));
      r == HttpStatusCodeResult(404, UserNotFoundMessage(username)) && Contains(r.statusDescription, username)
  {
    UserNotFoundMessageContainsUsername(username);
  }

  /** Any other failure is answered with 500 and its own message. */
  lemma OtherFailureResponseKeepsMessage(message: string)
    ensures CatchResult(OtherException(message)) == HttpStatusCodeResult(500, message)
  {
  }
}
