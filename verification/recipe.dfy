/** The recipe record received from the recipe API and the option type used
    for the nullable active category. */
module Recipes {

  /** `null` or a value. */
  datatype Option<T> = None | Some(value: T)

  /** One recipe as the API returns it. `id` is the store's `_id`; `time`,
      `description` and `image` are shown on the card and never filtered on. */
  datatype Recipe = Recipe(
    id: string,
    title: string,
    category: string,
    time: string,
    ingredients: seq<string>,
    description: string,
    image: string,
    favorite: bool
  )
}
