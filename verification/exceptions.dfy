/** The exceptions the lookup service can raise
    (Exceptions/UserNotFoundException.cs, plus any other exception). */
module Exceptions {
  import opened Wrappers

  const MessagePrefix: string := "User with "
  const MessageSuffix: string := " not found"

  /** The message built by the `UserNotFoundException(username)` constructor. */
  function UserNotFoundMessage(username: string): (m: string)
    ensures |m| == |username| + 20
    ensures m[..|MessagePrefix|] == MessagePrefix
    ensures m[|m| - |MessageSuffix|..] == MessageSuffix
    ensures m[|MessagePrefix|..|MessagePrefix| + |username|] == username
  {
    MessagePrefix + username + MessageSuffix
  }

  /** `sub` occurs in `s` starting at position `i`. */
  predicate OccursAt(s: string, sub: string, i: int)
  {
    0 <= i <= |s| - |sub| && s[i..i + |sub|] == sub
  }

  /** `sub` occurs somewhere in `s`. */
  ghost predicate Contains(s: string, sub: string)
  {
    exists i :: OccursAt(s, sub, i)
  }

  /** The message names the user that was not found. */
  lemma UserNotFoundMessageContainsUsername(username: string)
    ensures Contains(UserNotFoundMessage(username), username)
  {
    var m := UserNotFoundMessage(username);
    assert OccursAt(m, username, |MessagePrefix|);
  }

  /** Reads the username back out of a not-found message; None for any other text. */
  function ParseUserNotFoundMessage(m: string): (r: Option<string>)
    ensures r.Some? ==> |r.value| + 20 == |m|
  {
    if |m| >= 20 && m[..|MessagePrefix|] == MessagePrefix && m[|m| - |MessageSuffix|..] == MessageSuffix
    then Some(m[|MessagePrefix|..|m| - |MessageSuffix|])
    else None
  }

  /** Parsing the message of a not-found exception recovers the username. */
  lemma UserNotFoundMessageRoundTrip(username: string)
    ensures ParseUserNotFoundMessage(UserNotFoundMessage(username)) == Some(username)
  {
  }

  /** Every text the parser accepts is exactly the message for the parsed username. */
  lemma ParseUserNotFoundMessageSound(m: string)
    requires ParseUserNotFoundMessage(m).Some?
    ensures UserNotFoundMessage(ParseUserNotFoundMessage(m).value) == m
  {
  }

  /** Different usernames give different messages. */
  lemma UserNotFoundMessageInjective(u1: string, u2: string)
    requires UserNotFoundMessage(u1) == UserNotFoundMessage(u2)
    ensures u1 == u2
  {
  }

  /** An exception thrown by the lookup service: the typed not-found case or
      any other exception with its message. */
  datatype Exception =
    | UserNotFoundException(username: string)
    | OtherException(message: string)
  {
    /** The exception's `Message` property. */
    function Message(): string
    {
      match this
      case UserNotFoundException(u) => UserNotFoundMessage(u)
      case OtherException(msg) => msg
    }
  }
}
