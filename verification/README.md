# Recipe catalogue filter — Dafny model

The front end of the recipe catalogue keeps the full recipe list in memory.
It shows the subset that the user's filters select. This project models the
logic behind that view, taken from `script.js`:

- `getFilteredRecipes` works on a copy of the list and applies a fixed chain
  of AND-ed filters:
  - the single-select category (`null` means none);
  - the two combinable dietary filters "gluten" and "vege", which use
    ingredient keywords;
  - a case-insensitive title search;
  - a case-insensitive ingredient search.
- The category buttons and the combinable-filter buttons update the filter
  state when clicked.
- The edit form shows a recipe's ingredients as one line of text,
  `join(", ")`. On submit it reads them back with `split(",")` and `trim()`.

Modules, one per concern:

| file | module | contents |
|---|---|---|
| `recipe.dfy` | `Recipes` | the `Recipe` record and `Option` (for the nullable category) |
| `text.dfy` | `Text` | `toLowerCase` (`Lower`) and `includes` (`Contains`) |
| `sequences.dfy` | `Sequences` | `Array.prototype.filter` (`Filter`) and the order-preserving subsequence relation |
| `filter.dfy` | `RecipeFilter` | the filter state `Query`, the keyword lists, the five-step chain `GetFilteredRecipes` and its properties |
| `toggles.dfy` | `Toggles` | the two click handlers as state transitions |
| `ingredient_text.dfy` | `IngredientText` | `trim`, `split`, `join` and the ingredient text round trip |

Main results:

- **One filter.** The five-step chain equals a single `Filter` by the
  conjunction `Matches` of the active tests (`PipelineIsOneFilter`). From
  this, the output is an order-preserving subsequence of the input. It holds
  every occurrence of each matching recipe and nothing else.
- **Per-filter exactness.** For each filter there is a lemma stating what
  that filter adds on top of the others. Each is proved from the one-filter
  result.
- **Toggles.** Clicking the same button twice is characterised exactly.
- **Ingredient round trip.** Writing ingredients out and reading them back
  returns the original list, under the conditions stated in the lemma.

The search box contents are plain `string` parameters. `Query` holds them
next to the active category and the set of active combinable filters.
Dafny values are immutable, so the model cannot modify the recipe list. That
matches the copy `[...recipes]` the source filters.

A few facts about `script.js` that shape the model:

- No active category is `null`, modelled as `None`.
- Each ingredient is tested on its own with `some`; the ingredient list is
  never joined into one text for filtering.
- The chain runs the dietary filters before the title search. The chain
  equals one filter by the conjunction of all the tests
  (`PipelineIsOneFilter`), so the order of the steps does not change the
  result.

The code's JavaScript truthiness tests are kept as written:

- `if (activeCategory)` ignores the empty category as well as `null`
  (`CategoryActive`).
- `if (titleTerm)` and `if (ingredientTerm)` skip an empty search.
- For the ingredient search, skipping matters: a recipe with no ingredients
  survives an empty search term, although no ingredient of it contains `""`
  (`IngredientSearchExact`).

## Model

| member | source | states |
|---|---|---|
| `Text.LowerChar` | script.js:39-40 | lower-casing moves exactly the letters of the modelled upper-case range (ASCII and Latin-1 capitals) 32 code points up to their small letter, keeps every other character, and never yields a letter of that range |
| `Text.Lower` | script.js:39-40 | the modelled lower-casing keeps the length and lower-cases each character; the result has no letter of the modelled upper-case range, and a string without such a letter, such as the lower-case keywords, is returned as it is |
| `Text.LowerIdempotent` | script.js:39-40 | lower-casing twice is lower-casing once, so a term that is already lower-case is left as typed |
| `Text.LowerEmpty` | script.js:73 | a search term is empty after lower-casing exactly when it was empty before, so `if (titleTerm)` tests the raw input |
| `Text.Contains` | script.js:75 | `includes` holds exactly when the needle occurs at some position of the text, and the empty needle occurs in every text |
| `Text.ContainsEmpty` | script.js:75 | every text includes the empty string |
| `Text.ContainsPrefixOfNeedle` | script.js:51-52 | a text that includes `t + u` includes `t` |
| `Sequences.Filter` | script.js:43 | `filter` returns an order-preserving subsequence, all of whose elements pass the test, that keeps every occurrence of each passing element and drops every failing one |
| `Sequences.SubseqTrans` | script.js:206-217 | a subsequence of a subsequence is a subsequence, so two narrowing clicks in a row still narrow |
| `Sequences.FilterFuse` | script.js:42-83 | two filters in a row are one filter by the conjunction of their tests |
| `RecipeFilter.GetFilteredRecipes` | script.js:36-86 | the result is an order-preserving subsequence of the recipes; a recipe is in it if and only if it is in the input and passes every active filter; each matching recipe keeps its multiplicity |
| `RecipeFilter.CategoryStep` | script.js:42-44 | the category step keeps, in order and with their multiplicity, exactly the recipes of the active category; with `null` or `""` as the category it keeps every recipe |
| `RecipeFilter.GlutenStep` | script.js:46-57 | with "gluten" active, the step keeps exactly the recipes none of whose ingredients mentions a gluten keyword; otherwise it keeps every recipe |
| `RecipeFilter.VegeStep` | script.js:59-71 | with "vege" active, the step keeps exactly the recipes none of whose ingredients mentions a meat or fish keyword; otherwise it keeps every recipe |
| `RecipeFilter.TitleStep` | script.js:73-77 | with a non-empty lower-cased title term, the step keeps exactly the recipes whose lower-cased title contains it; with an empty term it keeps every recipe |
| `RecipeFilter.IngredientStep` | script.js:79-83 | with a non-empty lower-cased ingredient term, the step keeps exactly the recipes with an ingredient whose lower-cased text contains it; with an empty term it keeps every recipe |
| `RecipeFilter.PipelineIsOneFilter` | script.js:42-83 | the chain category, gluten, vege, title, ingredient equals one filter by the conjunction `Matches` of the active tests |
| `RecipeFilter.NoFilterShowsAll` | script.js:36-86 | with no category, neither dietary filter and both search boxes empty, the output equals the input |
| `RecipeFilter.CategoryFilterExact` | script.js:42-44 | with an active category, every shown recipe has that category, and every recipe of that category that the other filters keep is shown |
| `RecipeFilter.GlutenFilterExact` | script.js:46-57 | with "gluten" active, the output is what the other filters keep minus exactly the recipes having an ingredient that mentions a gluten keyword |
| `RecipeFilter.GlutenFilterExcludesKeywords` | script.js:46-57 | with "gluten" active, no shown recipe has an ingredient whose lower-cased text contains "blé", "farine", "pâte", "pâtes", "biscuit" or "pain" |
| `RecipeFilter.PatesSubsumedByPate` | script.js:51-52 | the keyword "pâtes" never changes the verdict, because any text containing it contains "pâte" |
| `RecipeFilter.VegeFilterExact` | script.js:59-71 | with "vege" active, the output is what the other filters keep minus exactly the recipes having an ingredient that mentions a meat or fish keyword |
| `RecipeFilter.VegeFilterExcludesKeywords` | script.js:59-71 | with "vege" active, no shown recipe has an ingredient whose lower-cased text contains "viande", "poulet", "poisson", "boeuf", "porc", "dinde" or "agneau" |
| `RecipeFilter.UnknownCombiFiltersIgnored` | script.js:46-71 | only the names "gluten" and "vege" in the combinable set affect the output |
| `RecipeFilter.TitleSearchExact` | script.js:73-77 | the title search keeps, of what the other filters keep, exactly the recipes whose lower-cased title contains the lower-cased term; an empty term leaves the list unchanged |
| `RecipeFilter.IngredientSearchExact` | script.js:79-83 | a non-empty ingredient search keeps, of what the other filters keep, exactly the recipes with an ingredient containing the lower-cased term; an empty term leaves the list unchanged |
| `RecipeFilter.SearchIgnoresCase` | script.js:39-40 | typing a term in any case gives the same output as typing it lower-case |
| `RecipeFilter.MatchesNarrowing` | script.js:42-83 | a query that accepts fewer recipes shows a subsequence of what a more permissive one shows, namely that list filtered further |
| `RecipeFilter.SampleScenario` | script.js:42-57 | for a flour tart and a salad, the "dessert" category shows only the tart and the gluten filter shows only the salad |
| `Toggles.ClickCategory` | script.js:194-201 | clicking the active category clears it; clicking any other category makes it the active one |
| `Toggles.ClickCategoryTwice` | script.js:194-201 | two clicks on one category button give back the active category if it was that one, and no category otherwise |
| `Toggles.ClickNewCategoryFilters` | script.js:192-203 | clicking a non-empty category that is not active narrows the output to that category's recipes among those the other filters keep |
| `Toggles.ToggleCombiFilter` | script.js:209-215 | a click flips membership of the clicked filter and leaves every other member of the set unchanged |
| `Toggles.ToggleCombiTwice` | script.js:209-215 | two clicks on one combinable filter restore the original set |
| `Toggles.ToggleOnNarrows` | script.js:206-217 | switching a combinable filter on shows a subsequence of what was shown before |
| `Toggles.TwoClicksNarrow` | script.js:206-217 | from a state where both are off, two clicks on combinable filters (the same one twice, or two different ones) show a subsequence of what was shown before |
| `IngredientText.Trim` | script.js:153 | `trim` returns the slice between the leading and the trailing whitespace: the result has no whitespace at either end, and everything removed is whitespace |
| `IngredientText.TrimFixesExactlyTrimmed` | script.js:153 | trimming leaves a string unchanged exactly when it has no whitespace at either end |
| `IngredientText.Split` | script.js:153 | `split(",")` yields comma-free pieces, one more than there are commas, that joined with "," give back the text |
| `IngredientText.SplitJoin` | script.js:153 | splitting a non-empty list of separator-free pieces, joined by the separator, returns that list |
| `IngredientText.RenderIngredients` | script.js:139 | `join(", ")` (built on `Join`, whose inverse is `SplitJoin`) writes a non-empty list of comma-free ingredients so that splitting the text at the commas gives back the ingredients, each after the first with the space of its ", " in front |
| `IngredientText.ParseIngredients` | script.js:153 | the submitted list has one entry per comma-separated piece, one more than there are commas, and entry i is the i-th piece of `split(",")` trimmed, so it is trimmed and comma-free |
| `IngredientText.RenderParseRoundTrip` | script.js:139-153 | showing a non-empty list of trimmed, comma-free ingredients with `join(", ")` and reading it back returns the same list |
| `IngredientText.EmptyListComesBackAsOneEmpty` | script.js:139-153 | an empty ingredient list comes back from the form as a list holding one empty ingredient |
| `IngredientText.CommaSplitsIngredient` | script.js:139-153 | an ingredient that itself holds ", " comes back as two ingredients |
| `IngredientText.ParseRenderParse` | script.js:139-153 | submitting the form a second time without edits gives the same ingredient list as the first time |

## Left out

- DOM access is not modelled: element lookups, card templating with `innerHTML`, class toggling on buttons, and opening and closing the modal (script.js:8-35, 88-119, 168-190, 220-222). The two search-box values are parameters.
- The `fetch` calls and the create/update/favourite flow (script.js:109-113, 127-131, 146-165) are not modelled. They are network I/O against an external API.
- The description truncation in the card (script.js:104) is display only.
- Text.LowerChar, Text.Lower: model `toLowerCase` for ASCII and Latin-1 (`À`..`Þ` except `×`) only. Other Unicode case mappings, including ones that change the string's length, are left out. For the dietary keywords the range is still enough. Outside it, the only capital that `toLowerCase` maps to a character some keyword uses is U+0130, which becomes `i` followed by U+0307. No keyword ends in `i` or contains U+0307, so it cannot complete a keyword match. The two searches do differ from `toLowerCase` outside the range; a title "ŒUFS" searched with "œufs" is one example.
- Strings are sequences of Unicode scalar values. JavaScript strings are UTF-16 code units; for well-formed text, `includes` gives the same answer on either view.
- Ingredients that are missing or not an array make the source throw (script.js:47, 60, 80), and so does a `title` that is missing or not a string (`r.title.toLowerCase()`, script.js:75). The model assumes every recipe carries a `title` string and a well-formed `seq<string>` of ingredients.
- IngredientText.Split: only the one-character separator the form uses is modelled, not `split` in general.
- Favourites, sorting, pagination, explicit dietary flags and the "grogros" size filter are not present in this `script.js`, so they are not modelled.
