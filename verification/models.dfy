/** The entities the controller exchanges with the lookup service, the
    framework and the views. The Models/ and Services/ folders are not part of
    this model; their shapes follow how the controller and its tests use them. */
module Models {
  import opened Wrappers
  import opened Exceptions

  /** The submitted search form; `Username` may be null. */
  datatype User = User(username: Option<string>)

  /** The account returned by `GetUserAsync`; every string may be null. */
  datatype UserResult = UserResult(
    name: Option<string>,
    avatarUrl: Option<string>,
    location: Option<string>,
    reposUrl: Option<string>)

  /** One repository returned by `GetReposAsync`. */
  datatype RepoResult = RepoResult(name: Option<string>, description: Option<string>, stargazerCount: int)

  /** What an awaited service call does: return a value or throw. */
  datatype Outcome<T> = Returned(value: T) | Threw(exception: Exception)

  /** The `IHttpService` collaborator, given as the outcome of each call for
      each argument. */
  datatype HttpService = HttpService(
    getUserAsync: Option<string> -> Outcome<UserResult>,
    getReposAsync: string -> Outcome<seq<RepoResult>>)

  /** One call made on the service, for the call log. */
  datatype ServiceCall = GetUserAsync(username: Option<string>) | GetReposAsync(reposUrl: string)

  /** A `ModelStateDictionary`: each key maps to the error messages of its
      entry; None stands for a null entry or a null `Errors` collection. */
  type ModelStateDictionary = map<string, Option<seq<string>>>

  /** The objects the controller keeps in TempData. */
  datatype TempValue =
    | ModelStateValue(modelState: ModelStateDictionary)
    | ReposValue(repos: seq<RepoResult>)
    | OtherValue

  type TempDataDictionary = map<string, TempValue>

  const ModelStateKey: string := "ModelState"
  const ReposKey: string := "Repos"

  const UsernameRouteKey: string := "Username"
  const AvatarUrlRouteKey: string := "AvatarUrl"
  const LocationRouteKey: string := "Location"

  /** The route values of a redirect built from a `GitHubUserResult`: its
      three string properties under their property names. */
  function RouteValuesOf(username: Option<string>, avatarUrl: Option<string>, location: Option<string>): (rv: map<string, Option<string>>)
    ensures rv.Keys == {UsernameRouteKey, AvatarUrlRouteKey, LocationRouteKey}
    ensures rv[UsernameRouteKey] == username && rv[AvatarUrlRouteKey] == avatarUrl
    ensures rv[LocationRouteKey] == location
  {
    map[UsernameRouteKey := username, AvatarUrlRouteKey := avatarUrl, LocationRouteKey := location]
  }

  /** The view model of the result page; `Repos` stays null until the
      `Result` action assigns it. */
  class GitHubUserResult {
    var username: Option<string>
    var avatarUrl: Option<string>
    var location: Option<string>
    var repos: Option<seq<RepoResult>>

    constructor (username: Option<string>, avatarUrl: Option<string>, location: Option<string>)
      ensures this.username == username && this.avatarUrl == avatarUrl && this.location == location
      ensures repos == None
    {
      this.username := username;
      this.avatarUrl := avatarUrl;
      this.location := location;
      repos := None;
    }

    /** The string properties as route values of a redirect. */
    function RouteValues(): map<string, Option<string>>
      reads this
    {
      RouteValuesOf(username, avatarUrl, location)
    }
  }

  /** What an action returns. */
  datatype ActionResult =
    | RedirectToRouteResult(action: string, controller: Option<string>, routeValues: map<string, Option<string>>)
    | ViewResult(model: GitHubUserResult?)
    | HttpStatusCodeResult(statusCode: int, statusDescription: string)
}
