# Guilted: response sanitizer and home-page state machine

Guilted is a small web application that collects a description of a friend,
asks a text-generation model for homemade gift ideas, and then asks it for a
detailed "recipe" for the idea the user picks. Two pieces of its logic can be
stated and proved:

- **`cleanJSON`** (lib/utils.ts), the sanitizer that strips a markdown code
  fence from the model's reply before `JSON.parse`. It is modelled in module
  `Utils` as `CleanJson` on `seq<char>`, composed of `Trim` (JavaScript's
  `String.prototype.trim`), `StripJsonFence` (the first `replace`) and
  `StripClosingFence` (the second `replace`). Module `Whitespace` defines the
  one space predicate both `trim` and the regular-expression class `\s` use:
  the WhiteSpace and LineTerminator code points of ECMA-262 sections 12.2 and
  12.3.
- **The home page** (app/page.tsx), modelled in module `Page` as an immutable
  `State` record of the page's six `useState` slots with one pure function per
  handler. Each `async` handler is a start event (the updates before its
  `await`) and a completion event (the `try`/`catch`/`finally` after it). The
  fetched body is an abstract record whose `giftIdeas` / `recipe` property may
  be absent. `Render` is the page's choice between the form with the idea list
  and the recipe card. Module `Types` holds the records the components
  declare.

What the proofs establish, beyond each operation's own contract:

- `Trim` is characterised independently: for any split of a string into a
  space prefix, a trimmed middle and a space suffix, `Trim` returns the middle
  (`TrimOfPadded`). The opening replacement likewise removes exactly the
  `json` tag and the maximal space run after it (`StripJsonFenceOfPadded`),
  and the closing one undoes appending a fence (`StripClosingFenceOfFenced`).
- A fenced body comes back with any space that preceded the closing fence,
  because nothing is trimmed after the fences go (`CleanJsonOfFenced`).
  `"```json\n[1]\n```"` cleans to `"[1]\n"`.
- The two `replace` calls commute on every input (`StripsCommute`). Applying
  the opening replacement before the closing one therefore cannot be observed.
  `"```json```"` cleans to `""` either way.
- Cleaning fixes a string exactly when the string is trimmed and carries
  neither fence (`CleanJsonFixedPoint`). Cleaning is idempotent on unfenced
  text, and on a single fenced body only when the body meets the closing
  fence directly. Whenever space comes before the closing fence, a second
  pass trims it away (`CleanJsonTwiceOnFenced`), so even the usual reply is
  not stable: `"```json\n[1]\n```"` cleans to `"[1]\n"` and then to `"[1]"`.
  With two closing fences a second pass removes more: `"a```\n```"` cleans
  to `"a```\n"` and then to `"a"`.
- In a sequential run of the page (`Enabled`, `Admissible`) the slots stay
  related (`Consistent`). A recipe request then always carries stored
  preferences. A recipe request that fails, or that returns no `recipe`
  property, leaves the page with no usable control (`StuckWithoutRecipe`):
  the form is hidden because a gift is selected, and the recipe card renders
  nothing, so there is no back button (components/gift-recipe.tsx:43-44).

One might expect a second trim after the fences go, so that a fenced array
cleans to the bare array. lib/utils.ts:9-12 trims only once, before removing
the fences, so the newline before the closing fence is kept. `JSON.parse` accepts that newline.

## Model

| member | source | states |
|---|---|---|
| Whitespace.IsSpace | lib/utils.ts:10-11 | the one space set of `trim()` and `\s` (ECMAScript WhiteSpace and LineTerminator); every member lies in the Basic Multilingual Plane and none is a backtick |
| Whitespace.TrimStart | lib/utils.ts:10 | the result is a suffix of the input, everything removed is space, and the result does not start with a space |
| Whitespace.TrimEnd | lib/utils.ts:10 | the result is a prefix of the input, everything removed is space, and the result does not end with a space |
| Whitespace.Trim | lib/utils.ts:10 | the result is trimmed at both ends and sits in the input between an all-space prefix and an all-space suffix |
| Whitespace.TrimOfPadded | lib/utils.ts:10 | for any split into space prefix, trimmed middle and space suffix, trim returns exactly the middle |
| Whitespace.TrimFixedPoint | lib/utils.ts:10 | a string is its own trim if and only if neither end is a space |
| Whitespace.TrimIdempotent | lib/utils.ts:10 | trimming twice equals trimming once |
| Utils.StripJsonFence | lib/utils.ts:11 | the result is a suffix of the input; with the lower-case tag in front, the removed part is the tag then only spaces, and the result does not start with a space; without the tag nothing changes |
| Utils.StripJsonFenceOfPadded | lib/utils.ts:11 | tag, then any space run, then a remainder not starting with a space: exactly the remainder is left |
| Utils.StripClosingFence | lib/utils.ts:12 | a string ending in the three-backtick fence loses exactly that fence; any other string is unchanged |
| Utils.StripClosingFenceOfFenced | lib/utils.ts:12 | removing the closing fence undoes appending one |
| Utils.CleanJson | lib/utils.ts:8-13 | the output is a contiguous piece of the trimmed input, no longer than the input, and equals the trimmed input when that has neither the opening tag nor the closing fence |
| Utils.CleanJsonOpenFence | lib/utils.ts:10-12 | when the trimmed input is tag + spaces + remainder, the output is the remainder less at most one closing fence |
| Utils.CleanJsonNoOpenFence | lib/utils.ts:10-12 | without the lower-case tag the front is kept: the output is a prefix of the trimmed input, shorter by 0 or exactly 3 characters |
| Utils.CleanJsonOfUnopened | lib/utils.ts:10-12 | trimmed text without the tag that ends in a fence cleans to the text less that one fence |
| Utils.CleanJsonOfFenced | lib/utils.ts:8-13 | space, tag, space, body, space, fence, space cleans to the body followed by the space before the fence |
| Utils.StripsCommute | lib/utils.ts:11-12 | removing the opening tag then the closing fence equals removing them in the other order, on every input |
| Utils.CleanJsonFixedPoint | lib/utils.ts:9-12 | cleaning leaves a string unchanged if and only if it is trimmed and has neither the opening tag nor the closing fence |
| Utils.CleanJsonOfSpacedPlain | lib/utils.ts:9-12 | trimmed, unfenced text followed by space cleans to the text alone |
| Utils.CleanJsonTwiceOnFenced | lib/utils.ts:9-12 | a fenced body with a space run before the closing fence cleans to body plus that run, a second pass to the body alone, and the two passes differ whenever the run is not empty |
| Utils.CleanJsonIdempotentOnFenced | lib/utils.ts:9-12 | a fenced, trimmed, unfenced body that meets the closing fence directly cleans to the body in one pass, and a second pass leaves that result unchanged |
| Utils.CleanJsonIdempotentOnPlain | lib/utils.ts:9-12 | text whose trim carries no fence is cleaned in one pass |
| Utils.CleanJsonKeepsSpaceBeforeClosingFence | lib/utils.ts:11-12 | "```json\n[1]\n```" cleans to "[1]\n" |
| Utils.CleanJsonSingleFenceNotIdempotent | lib/utils.ts:9-12 | a second pass turns the cleaned "```json\n[1]\n```", which is "[1]\n", into "[1]" |
| Utils.CleanJsonKeepsUpperCaseTag | lib/utils.ts:11 | an upper-case JSON tag stays; only the closing fence goes |
| Utils.CleanJsonKeepsBareOpeningFence | lib/utils.ts:11 | an untagged opening fence stays; only the closing fence goes |
| Utils.CleanJsonOfEmptyFence | lib/utils.ts:11-12 | "```json```" cleans to the empty string |
| Utils.CleanJsonRemovesOneClosingFence | lib/utils.ts:12 | of two closing fences only the last is removed |
| Utils.CleanJsonFirstPass | lib/utils.ts:10-12 | "a```\n```" cleans to "a```\n" |
| Utils.CleanJsonSecondPass | lib/utils.ts:10-12 | "a```\n" cleans to "a" |
| Utils.CleanJsonNotIdempotent | lib/utils.ts:10-12 | cleaning the cleaned "a```\n```" changes it again |
| Page.Initial | app/page.tsx:13-25 | the `useState` initial values: no answers, an empty idea list, nothing selected, no recipe, no spinner; the form with an empty list is shown and submitting is the only enabled event |
| Page.Render | app/page.tsx:122-147 | the form and idea list are shown if and only if no gift is selected, with the stored ideas and ideas spinner; otherwise the recipe card with the stored recipe and recipe spinner |
| Page.SubmitStart | app/page.tsx:37-42 | the answers are stored, the ideas spinner is on, ideas are emptied, selection and recipe are cleared, the recipe flag is kept; the view is the form with an empty list |
| Page.SubmitComplete | app/page.tsx:46-65 | the ideas spinner is off; on success the ideas become the response's `giftIdeas`, on failure they are kept; no other slot changes |
| Page.SelectStart | app/page.tsx:76-79 | the gift is selected, the recipe cleared and the recipe spinner on; ideas, preferences and ideas spinner are kept; the view is the loading recipe card |
| Page.RecipeRequestOf | app/page.tsx:87-90 | the request carries the gift's title and the stored preferences |
| Page.SelectComplete | app/page.tsx:81-104 | the recipe spinner is off; on success the recipe becomes the response's `recipe`, on failure it is kept; no other slot changes |
| Page.Back | app/page.tsx:107-110 | selection and recipe are cleared and nothing else changes, so the view is the form with the stored ideas |
| Page.Enabled | app/page.tsx:122-146 | an enabled submit or pick has the form and list on screen, a pick is one of the listed ideas, and an enabled back click has a loaded, non-loading recipe card on screen; that submitting also waits for the ideas request to settle is a choice of the model (components/friend-preferences-form.tsx ignores `isLoading`) |
| Page.InitialConsistent | app/page.tsx:13-25 | the initial slot values are consistent |
| Page.StepConsistent | app/page.tsx:37-110 | every enabled event keeps the slots consistent |
| Page.RunConsistent | app/page.tsx:37-110 | every admissible run of events keeps the slots consistent |
| Page.ReachableConsistent | app/page.tsx:13-110 | every state a sequential run reaches from the initial values is consistent |
| Page.OneSpinnerAtATime | app/page.tsx:129-146 | in a consistent state the ideas spinner and the recipe spinner are never both on |
| Page.RecipeRequestCarriesPreferences | app/page.tsx:87-90 | whenever an idea can be picked, the recipe request carries stored preferences and the picked title |
| Page.SubmitRoundTrip | app/page.tsx:37-65 | a submission ends with the spinner off, the new answers stored, nothing selected, no recipe; the response's ideas on success and an empty list on failure |
| Page.SelectRoundTrip | app/page.tsx:76-104 | a selection ends with the spinner off and the gift selected; the response's recipe on success and none on failure; ideas and preferences untouched |
| Page.BackShowsSameIdeas | app/page.tsx:107-110 | going back after a recipe request shows the same idea list and ideas spinner as before the selection |
| Page.StuckWithoutRecipe | components/gift-recipe.tsx:30-53 | after a failed or recipe-less response no event is enabled: the form is hidden and the card has no back button |

## Left out

- `cn` (lib/utils.ts:4-6): a wrapper over `clsx` and `tailwind-merge`, which are not part of this model.
- The two route handlers (app/api/generate-gifts/route.ts, app/api/generate-recipe/route.ts): they build a prompt string, call the external `generateText` API and the foreign `JSON.parse`, and turn any exception into a 500 response. They do no structural validation of ideas or recipes.
- JSON parsing: `cleanJSON` validates nothing, and the page's `response.json()` is abstracted into the `Reply` record. A parse failure is one of the `Failed` cases.
- The response fields are typed: an ideas body carries an optional list of `GiftIdea` and a recipe body an optional `GiftRecipe`. A property holding some other JSON value is not modelled.
- Rendering by the presentational components. The model keeps only the choice in app/page.tsx:122-147, and, in `Enabled`, which controls the components put on screen. The preference form in this version has no submit handler and ignores the props the page passes it (components/friend-preferences-form.tsx:24), so in practice `Submit` never fires. The model keeps the handler as the page defines it.
- An absent `giftIdeas` property makes the page store `undefined` (`None` in the model). The idea list would then fail on `.length` while rendering (components/gift-ideas-list.tsx:30). Rendering failures are not modelled.
- The routes answer with a bare array or object, while the page reads `.giftIdeas` and `.recipe`. The ideas route also reads top-level fields, while the page sends `{ friendPreferences }`. These are cross-file wiring mismatches. The model treats each response body as an abstract record and does not model them.
- Asynchronous interleaving: overlapping requests, a later response overwriting an earlier one, and the absence of cancellation. `Enabled` admits only sequential runs, with at most one request of each kind in flight.
- Logging through `console.error`, and the request headers and HTTP method.
- `GiftIdea.id` is a JavaScript `number` and is modelled as an unbounded `int`; the idea list uses it only as a React key (components/gift-ideas-list.tsx:41), so fractions and precision are not modelled.
- Page.Enabled: the form neither disables its button nor reads `isLoading`, so a second submission while ideas load is possible in the source; the model admits `Submit` only when no ideas request is outstanding, as part of the sequential-run restriction below.
- Strings are sequences of Unicode scalar values, not UTF-16 code units. Every space character lies in the Basic Multilingual Plane, so trimming and `\s` treat both alike.
