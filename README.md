# Kwik Meal client logic, modelled in Dafny

Kwik Meal is a browser client for a recipe search service. The user builds a
list of ingredient tags, the page sends the list to a remote search API, and
each result is rendered as a recipe card. This project models the two
components that hold logic of their own and proves what they promise.

- **The ingredient tag input** (`src/components/ingredient-input.tsx`). It
  holds two pieces of state: the tag list `ingredients` and the typed text
  `inputValue`. Typed text becomes a tag by `trim().toLowerCase()`. Blank
  text and duplicates are rejected. Enter adds, Backspace in an empty field
  removes the last tag, each badge's X removes its tag, Clear empties the
  list, and Search hands the list to the page. The model is the class
  `IngredientInputComponent.IngredientInput` with those two fields. Its
  methods keep the invariant `ValidTags`: every tag is non-empty, trimmed and
  lower-case, and no tag occurs twice. The badges are keyed by the tag text,
  so the keys are unique. The lists the handlers build (the spread
  `[...ingredients, tag]` and `filter`) are pure functions in module `Tags`.
- **The recipe card** (`src/components/recipe-card.tsx`). It turns a loosely
  typed record into what the card shows, and is modelled as pure functions in
  module `RecipeCard`. `cook_time` and `prep_time` may be numbers or strings
  and are coerced with `parseInt`. Their sum is the total time.
  `ingredients` may be an array, a JSON string or a comma-separated string,
  and becomes a list. An ingredient is highlighted when a search term occurs
  in it, ignoring case. At most eight badges are shown, followed by a
  "+N more" badge for the rest.

Supporting modules:

- `Text` defines the string operations on ASCII text: `trim`, `toLowerCase`,
  `split` on one character, and `includes`.
- `JsParseInt` defines `parseInt(s)` with no radix, following section 19.2.5
  of ECMA-262 (the ECMAScript language specification). It skips leading
  whitespace, reads an optional sign, switches to base 16 after `0x` or `0X`,
  and reads the longest digit run. If there are no digits the result is NaN,
  written `None` here. The module also defines the decimal rendering of an
  integer.
- `Wrappers` defines `Option`.

Some consequences of following the code exactly:

- The tag is computed as `trim()` first, then `toLowerCase()`.
  `Text.TrimToLowerCommute` proves that the other order gives the same tag.
- A string time is read by `parseInt`, so `"15 min"` is 15 minutes, `"abc"`
  is 0 and `""` is 0. A `0x` prefix makes it hexadecimal: `"0x1E"` is 30
  minutes.
- The comma fallback keeps empty pieces. `"a,,b"` gives `a`, an empty
  ingredient, then `b`, and an empty string gives one empty ingredient.
- The result of `JSON.parse` is used as it is, without trimming.

## Model

| member | source | states |
|---|---|---|
| `Text.Trim` | src/components/ingredient-input.tsx:26 | `trim()` returns a string with no whitespace at either end, padded in the input only by whitespace |
| `Text.TrimOfPadded` | src/components/ingredient-input.tsx:26 | any trimmed string padded with whitespace on both sides trims back to exactly that string, so `trim()` is fully determined |
| `Text.TrimIdempotent` | src/components/recipe-card.tsx:53 | trimming twice is the same as trimming once |
| `Text.TrimEmptyIffBlank` | src/components/ingredient-input.tsx:42 | `inputValue.trim()` is empty (falsy) exactly when the input is all whitespace |
| `Text.ToLower` | src/components/ingredient-input.tsx:26 | `toLowerCase()` keeps the length and lower-cases each character in place |
| `Text.ToLowerIsLower` | src/components/ingredient-input.tsx:26 | a lower-cased string has no capital letters |
| `Text.ToLowerOfLower` | src/components/recipe-card.tsx:68 | lower-casing text that has no capitals changes nothing |
| `Text.ToLowerKeepsWhitespace` | src/components/ingredient-input.tsx:26 | lower-casing keeps blank text blank and trimmed text trimmed |
| `Text.TrimToLowerCommute` | src/components/ingredient-input.tsx:26 | trimming then lower-casing equals lower-casing then trimming |
| `Text.TrimKeepsOut` | src/components/recipe-card.tsx:53 | trimming never introduces a character, so a comma-free piece stays comma-free |
| `Text.Count` | src/components/recipe-card.tsx:53 | the number of commas is zero exactly when the text has none |
| `Text.Split` | src/components/recipe-card.tsx:53 | `split(",")` gives one more piece than there are commas, and no piece contains a comma |
| `Text.JoinSplit` | src/components/recipe-card.tsx:53 | joining the pieces with commas restores the original string |
| `Text.SplitJoin` | src/components/recipe-card.tsx:53 | splitting comma-joined comma-free pieces gives back those pieces |
| `Text.Contains` | src/components/recipe-card.tsx:68 | `includes(t)` holds exactly when `t` occurs at some position, so the empty string is always included |
| `JsParseInt.DigitRun` | src/components/recipe-card.tsx:28 | the digits `parseInt` reads are the longest prefix of digits in the current base |
| `JsParseInt.ParseInt` | src/components/recipe-card.tsx:28 | `parseInt` of blank text is NaN; the value for every other shape of input is stated by `ParseIntOfDecimal`, `ParseIntOfHex`, `ParseIntOfBareHexPrefix` and `ParseIntOfNoNumber` |
| `JsParseInt.ParseSigned` | src/components/recipe-card.tsx:28 | a number is read only after a sign or at the start, and a leading `-` gives a result that is not positive |
| `JsParseInt.ParseUnsigned` | src/components/recipe-card.tsx:28 | a number is read only from text that starts with a decimal digit |
| `JsParseInt.ParseIntSkipsWhitespace` | src/components/recipe-card.tsx:28 | leading whitespace does not change what `parseInt` reads |
| `JsParseInt.FormatNat` | src/components/recipe-card.tsx:107 | the decimal rendering of a number is non-empty, all digits, has no leading zero and denotes that number |
| `JsParseInt.ParseIntOfFormatted` | src/components/recipe-card.tsx:25-32 | `parseInt` reads any integer's decimal rendering back and ignores trailing text that cannot extend it, as in "15 min" |
| `JsParseInt.ParseIntFormatInt` | src/components/recipe-card.tsx:25-32 | round trip: `parseInt(String(n))` is `n` for every integer |
| `JsParseInt.ParseUnsignedOfDecimal` | src/components/recipe-card.tsx:28 | any run of decimal digits, leading zeros included, reads as the number it denotes unless what follows continues it or makes a lone "0" a `0x` prefix |
| `JsParseInt.ParseIntOfDecimal` | src/components/recipe-card.tsx:28 | whitespace, an optional `+` or `-` and a decimal digit run read as the signed value of the digits, whatever non-digit text follows ("+5", " 007 min", "-12") |
| `JsParseInt.ParseIntOfHex` | src/components/recipe-card.tsx:28 | whitespace, an optional sign, `0x` or `0X` and a hexadecimal digit run read as the signed base-16 value ("0x1E" is 30) |
| `JsParseInt.ParseIntOfBareHexPrefix` | src/components/recipe-card.tsx:28 | whitespace, an optional sign and `0x` or `0X` with no hexadecimal digit after it give NaN ("0x", "-0xg", " 0X min") |
| `JsParseInt.ParseIntOfNoNumber` | src/components/recipe-card.tsx:28 | whitespace and an optional sign followed by no decimal digit give NaN ("", "-abc", "abc") |
| `Tags.Normalize` | src/components/ingredient-input.tsx:26 | the normalised text is trimmed and lower-case, and it is empty exactly when the input is blank |
| `Tags.InitialTagsValid` | src/components/ingredient-input.tsx:18-22 | the initial list basil, tomato, pasta satisfies the tag-list invariant |
| `Tags.AppendKeepsValid` | src/components/ingredient-input.tsx:27-28 | appending an accepted normalised tag keeps every tag well-formed and distinct |
| `Tags.NormalizeOfTag` | src/components/ingredient-input.tsx:26 | a trimmed lower-case string is its own normal form |
| `Tags.NormalizeIdempotent` | src/components/ingredient-input.tsx:26 | normalising twice is the same as normalising once |
| `Tags.NormalizeIgnoresCase` | src/components/ingredient-input.tsx:26 | the letter case of the typed text does not affect the tag |
| `Tags.RetypedTagRejected` | src/components/ingredient-input.tsx:27 | retyping an existing tag in any letter case, with any surrounding whitespace, is rejected as a duplicate |
| `Tags.Without` | src/components/ingredient-input.tsx:35-37 | the filtered list holds exactly the entries different from the removed one, and is no longer than before |
| `Tags.WithoutConcat` | src/components/ingredient-input.tsx:35-37 | filtering keeps the surviving entries in their original order |
| `Tags.WithoutAbsent` | src/components/ingredient-input.tsx:34-38 | removing a tag that is not in the list leaves the list unchanged |
| `Tags.WithoutAt` | src/components/ingredient-input.tsx:34-38 | in a list without duplicates, removing the tag at index i drops exactly that one entry |
| `Tags.WithoutLength` | src/components/ingredient-input.tsx:34-38 | in a valid list, removal shortens the list by one exactly when the tag was present |
| `Tags.WithoutLast` | src/components/ingredient-input.tsx:45-46 | in a valid list, removing the last tag leaves the list minus its last entry |
| `Tags.WithoutKeepsValid` | src/components/ingredient-input.tsx:34-38 | removal keeps every tag well-formed and distinct |
| `IngredientInputComponent.IngredientInput.constructor` | src/components/ingredient-input.tsx:18-23 | the component starts with basil, tomato, pasta and an empty field, which satisfies the invariant |
| `IngredientInputComponent.IngredientInput.SetInputValue` | src/components/ingredient-input.tsx:77 | typing sets the field and leaves the list alone |
| `IngredientInputComponent.IngredientInput.AddIngredient` | src/components/ingredient-input.tsx:25-32 | an accepted tag is appended at the end and the field is cleared; a blank or duplicate leaves list and field unchanged; the invariant is kept |
| `IngredientInputComponent.IngredientInput.RemoveIngredient` | src/components/ingredient-input.tsx:34-39 | the list becomes its filter, shorter by one exactly when the tag was present and unchanged otherwise; the invariant is kept |
| `IngredientInputComponent.IngredientInput.HandleKeyDown` | src/components/ingredient-input.tsx:41-48 | Enter on non-blank text prevents the default and acts as adding that text; Backspace in an empty field with tags drops exactly the last tag; anything else changes nothing |
| `IngredientInputComponent.IngredientInput.SearchDisabled` | src/components/ingredient-input.tsx:92 | the Search button is disabled exactly when the Clear button is (no tags) or a search is running |
| `IngredientInputComponent.IngredientInput.ClearDisabled` | src/components/ingredient-input.tsx:110 | the Clear button is disabled exactly when there is no tag to clear |
| `IngredientInputComponent.IngredientInput.HandleSearch` | src/components/ingredient-input.tsx:50-54 | `onSearch` is called, with the current list, exactly when the list is non-empty, which is exactly when the Search button is enabled outside a running search |
| `IngredientInputComponent.IngredientInput.Clear` | src/components/ingredient-input.tsx:109-110 | Clear empties the list, keeps the typed text, and leaves the Clear button disabled |
| `RecipeCard.ParseMinutes` | src/components/recipe-card.tsx:28 | substituting "0" for an empty string does not change the result: unreadable text and empty text both give 0 |
| `RecipeCard.CoerceTime` | src/components/recipe-card.tsx:25-32 | a numeric time passes through, a string time is its `parseInt` value or 0 for NaN, and a missing time is 0 |
| `RecipeCard.CoerceTimeOfText` | src/components/recipe-card.tsx:25-32 | a time string holding a decimal integer, optionally followed by a unit, is read as that integer |
| `RecipeCard.CoerceTimeOfWords` | src/components/recipe-card.tsx:25-32 | a time string with no digit after its leading whitespace and optional sign is 0, including blank text and "-abc" |
| `RecipeCard.CoerceTimeOfBareHexPrefix` | src/components/recipe-card.tsx:25-32 | a time string whose number is a bare `0x` or `0X` prefix, with no hexadecimal digit after it, is 0 |
| `RecipeCard.CoerceTimeOfPlusFive` | src/components/recipe-card.tsx:28 | "+5" is 5 minutes |
| `RecipeCard.CoerceTimeOfPaddedSeven` | src/components/recipe-card.tsx:28 | " 007 min" is 7 minutes |
| `RecipeCard.CoerceTimeOfHex` | src/components/recipe-card.tsx:28 | "0x1E" is 30 minutes |
| `RecipeCard.CoerceTimeOfSignedWords` | src/components/recipe-card.tsx:28 | "-abc" is 0 minutes |
| `RecipeCard.TrimAll` | src/components/recipe-card.tsx:53 | mapping `trim()` keeps the number of pieces, and piece i of the result is the trim of piece i, so has no whitespace at either end |
| `RecipeCard.NormalizeIngredients` | src/components/recipe-card.tsx:36-57 | an array is returned unchanged, a JSON array string gives the parsed array, other strings give one trimmed comma-free entry per comma plus one, and anything else gives an empty list |
| `RecipeCard.CommaListPieces` | src/components/recipe-card.tsx:41-53 | a comma-separated string that is not JSON gives its pieces in order, each trimmed |
| `RecipeCard.CommaListRoundTrip` | src/components/recipe-card.tsx:41-53 | trimmed comma-free items joined with commas come back unchanged |
| `RecipeCard.Matches` | src/components/recipe-card.tsx:67-69 | an ingredient matches exactly when some search term, lower-cased, occurs in the lower-cased ingredient |
| `RecipeCard.SearchTagMatches` | src/components/recipe-card.tsx:67-69 | a lower-case search tag matches every ingredient that contains it in any letter case |
| `RecipeCard.MatchesIgnoresCase` | src/components/recipe-card.tsx:68 | lower-casing the ingredient first does not change whether it matches |
| `RecipeCard.Highlight` | src/components/recipe-card.tsx:66-71 | one entry per ingredient, at the same index, marked exactly when some term matches; no terms mark nothing, an empty term marks everything |
| `RecipeCard.ShownBadges` | src/components/recipe-card.tsx:127-128 | the shown badges are the first min(8, n) highlighted entries, in order |
| `RecipeCard.MoreBadge` | src/components/recipe-card.tsx:142-144 | the "+N more" badge appears exactly when there are more than 8 ingredients, with N the number of ingredients beyond the eighth |
| `RecipeCard.RenderCard` | src/components/recipe-card.tsx:23-158 | the total time is cook plus prep time; the badges are exactly the first min(8, n) highlighted entries, each with its ingredient and match mark; "+N more" appears exactly when n > 8, with N = n - 8, so badges and count account for every ingredient; title and author are shown as given; photo, cuisine and category appear exactly when non-empty, and then with the recipe's own value |

## Left out

- `src/lib/api.ts` is not part of this model. It is network I/O through
  `fetch`, query-string encoding by `URLSearchParams` and JSON decoding.
- `src/app/page.tsx` is not part of this model. It holds the asynchronous
  loading, error and result state around the HTTP call, and the page layout.
  `onSearch` is represented by the value `HandleSearch` returns, and the
  `isLoading` prop by the argument of `SearchDisabled`.
- `JSON.parse` is a library call. `NormalizeIngredients` takes its outcome as
  the parameter `parseJsonArray`, which returns the parsed array, or `None`
  when parsing throws or yields something other than an array. Only the
  comma-split fallback is specified in detail.
- Ratings (`parseFloat` and `toFixed(1)`, recipe-card.tsx:60-63 and 97) are
  floating-point formatting.
- Numbers are modelled as unbounded integers. This leaves out a numeric
  `cook_time` that is fractional or NaN, and `parseInt` results beyond 2^53,
  where JavaScript loses precision.
- Only ASCII is modelled. Whitespace is tab, line feed, vertical tab, form
  feed, carriage return and space, and only A-Z are lower-cased. The Unicode
  spaces that `trim()` and `parseInt` also skip, and non-ASCII case mapping,
  are left out.
- The `onError` image handler (recipe-card.tsx:81-84) mutates the DOM. It is
  left out, along with class names, icons, the input placeholder
  (ingredient-input.tsx:79-83) and the help text (ingredient-input.tsx:117-122).
- React state updates are modelled as taking effect immediately, one event
  at a time. Batching and stale closures are not modelled.
- Array elements are assumed to be strings. A non-string element in an
  `ingredients` array would make `toLowerCase` throw in JavaScript, and that
  case is not modelled.
