/**
  The records the page keeps in its view state, as the components declare
  them, and the optional value the page uses for `null`.
 */
module Types {

  /** A value that may be absent: `null` in the page's state. */
  datatype Option<+T> = None | Some(value: T)

  /** The answers collected about the friend; passed through verbatim. */
  datatype FriendPreferences = FriendPreferences(interests: string, loveLanguage: string, budget: string)

  /** One suggestion of the model. The id is model-assigned and need not be unique. */
  datatype GiftIdea = GiftIdea(id: int, title: string, description: string)

  /** The detailed plan for one chosen gift. */
  datatype GiftRecipe = GiftRecipe(
    title: string,
    estimatedPrice: string,
    estimatedDuration: string,
    materials: seq<string>,
    steps: seq<string>)
}
