# Tag index link handler

A Dafny model of `CoreTagIndexLinkHandler`, the link handler of the Moodle mobile
app that claims URLs of the web site's tag index page (`/tag/index.php`) and
opens the matching screen inside the app. It has three parts:

- the URL claim: the handler's pattern `/\/tag\/index\.php/`, which contains
  only escaped literal characters, so a URL is claimed exactly when it contains
  the text `/tag/index.php`;
- parameter decoding: seven query parameters become a flat record. `tagName`
  is `tag || ''`. Every numeric field is `parseInt(value, 10) || default`. The
  default is 1 for `recursive` (`rec`) and 0 for `tagId` (`id`),
  `collectionId` (`tc`), `areaId` (`ta`), `fromContextId` (`from`) and
  `contextId` (`ctx`);
- the target choice: the tag search page with no parameters when there is no
  tag id and either no tag name or no collection; otherwise the tag index page
  of an area when the area id is non-zero; otherwise the general tag index page.
  In both index cases the page gets the whole record.

Files:

- `wrappers.dfy`, module `Wrappers`: `Option`, used for a query parameter that
  is present or undefined.
- `ecma_parse_int.dfy`, module `EcmaParseInt`: ECMAScript `parseInt` with radix
  10, as section 19.2.5 of ECMA-262 defines it. It trims white space
  (StrWhiteSpaceChar: TAB, VT, FF, ZWNBSP, the Zs spaces, LF, CR, LS, PS),
  takes an optional sign and then the longest run of decimal digits; no digits
  gives NaN. The result keeps the sign, so `-0` stays apart from `+0`. The same
  module gives a declarative reading of `parseInt`: white space, a sign, a
  non-empty numeral, and a rest that does not start with a digit. It is proved
  equivalent to the function in both directions. It also has the plain decimal
  numeral of an integer (what `String(n)` writes when |n| < 10^21), and a
  proof that `parseInt` reads that numeral back.
- `tag_index_link_handler.dfy`, module `TagIndexLinkHandler`: the pattern, the
  decoding, the action and the three-way choice, `getActions` and `isEnabled`,
  and the worked cases of the handler.

The handler's only effect is one `goInSite(navCtrl, page, params, siteId)`
call. The model returns that call as a `Navigation` value (page, parameters,
site). Query parameters are a `map<string, string>`; a name missing from the
map is `undefined`, which `parseInt` turns into the string "undefined" and
reads as NaN.

How the code reads unusual values:

- `parseInt` reads a leading numeral and ignores the rest: `5abc` gives 5.
- A value whose numeral is zero (`0`, `-0`, `000`, `0x10`) falls back to the
  default, so `rec=0` gives `recursive` 1.
- `id=0` acts exactly like a missing `id`; `RoutesToSearchIff` states this.

## Model

| member | source | states |
|---|---|---|
| TagIndexLinkHandler.Matches | src/core/tag/providers/index-link-handler.ts:27 | a URL is claimed exactly when `/tag/index.php` occurs at some position of it |
| EcmaParseInt.TrimStart | src/core/tag/providers/index-link-handler.ts:48 | parseInt's trimming keeps a suffix of the input; everything dropped is white space, and what is kept does not start with white space |
| EcmaParseInt.DigitPrefix | src/core/tag/providers/index-link-handler.ts:48 | parseInt reads the longest prefix of decimal digits; radix 10 strips no `0x` |
| EcmaParseInt.JsToString | src/core/tag/providers/index-link-handler.ts:48-54 | parseInt first turns its argument into a string: an absent parameter (`params.id` undefined) is the string "undefined", a present one is its own value |
| EcmaParseInt.ParseInt10 | src/core/tag/providers/index-link-handler.ts:48-54 | `parseInt(value, 10)` returns a number only when its input contains a decimal digit; its value on every input is fixed by ParseIntOfPrefixSplit, PrefixSplitOfParseInt and ParseIntNaNIff |
| EcmaParseInt.ParseIntOfPrefixSplit | src/core/tag/providers/index-link-handler.ts:48 | for any split of the input into white space, a sign, a numeral and a rest that does not start with a digit, parseInt returns that sign and the numeral's value |
| EcmaParseInt.PrefixSplitOfParseInt | src/core/tag/providers/index-link-handler.ts:48 | every number parseInt returns comes from such a split, with its sign and value |
| EcmaParseInt.ParseIntNaNIff | src/core/tag/providers/index-link-handler.ts:48 | parseInt is NaN exactly when the input has no such split |
| EcmaParseInt.ParseIntTruthyIff | src/core/tag/providers/index-link-handler.ts:48-54 | parseInt's result is truthy (not NaN, +0 or -0) exactly when the input starts with a numeral that is not zero |
| EcmaParseInt.UndefinedHasNoPrefix | src/core/tag/providers/index-link-handler.ts:48-54 | an absent parameter reads as "undefined", which has no numeral |
| EcmaParseInt.ZeroNumeralIsFalsy | src/core/tag/providers/index-link-handler.ts:48-54 | a value whose numeral is worth zero (`0`, `-0`, `000`) carries no non-zero numeral, so it falls back to the default |
| EcmaParseInt.LoneLeadingZero | src/core/tag/providers/index-link-handler.ts:48-54 | a value that is `0` followed by anything but a digit (`0`, `0x10`) carries no non-zero numeral |
| EcmaParseInt.DecimalValueZeroIff | src/core/tag/providers/index-link-handler.ts:48-54 | a numeral is worth zero exactly when all of its digits are '0', so `000` is falsy like `0` |
| EcmaParseInt.NumberToString | src/core/tag/providers/index-link-handler.ts:38 | the plain decimal numeral of n, as String(n) writes it below 10^21: a '-' exactly when n is negative, then digits with no leading zero unless n is 0 |
| EcmaParseInt.NumeralValue | src/core/tag/providers/index-link-handler.ts:38 | the decimal numeral that String(n) writes for a natural number below 10^21 has value n |
| EcmaParseInt.ParseIntOfNumberToString | src/core/tag/providers/index-link-handler.ts:38 | parseInt reads back every integer written as a plain decimal numeral (what String(n) writes for magnitudes below 10^21), as in the `{id: 1}` parameters the handler documents |
| TagIndexLinkHandler.Lookup | src/core/tag/providers/index-link-handler.ts:48-54 | reading `params.<key>` gives the key's value when the URL has that parameter and undefined exactly when it does not |
| TagIndexLinkHandler.DecodeNumber | src/core/tag/providers/index-link-handler.ts:48-54 | `parseInt(v, 10)`, or else the default, is the default or a non-zero number |
| TagIndexLinkHandler.DecodeString | src/core/tag/providers/index-link-handler.ts:49 | the tag name is the raw string when the parameter is present, and '' when it is absent |
| TagIndexLinkHandler.DecodeParams | src/core/tag/providers/index-link-handler.ts:47-55 | `recursive` is never 0; `tagName` is the raw `tag` value or '' |
| TagIndexLinkHandler.DecodeNumberFromPrefix | src/core/tag/providers/index-link-handler.ts:48-54 | a value that starts (after white space and a sign) with a non-zero numeral decodes to the signed value of that numeral |
| TagIndexLinkHandler.DecodeNumberFallsBack | src/core/tag/providers/index-link-handler.ts:48-54 | an absent value, or one with no non-zero numeral, decodes to the default |
| TagIndexLinkHandler.NumericFieldFromPrefix | src/core/tag/providers/index-link-handler.ts:48-54 | each of the six numeric fields is the signed numeral its parameter starts with, when that numeral is not zero |
| TagIndexLinkHandler.NumericFieldDefault | src/core/tag/providers/index-link-handler.ts:48-54 | otherwise the field is its default: 1 for `recursive`, 0 for the others |
| TagIndexLinkHandler.NumericFieldNonZeroIff | src/core/tag/providers/index-link-handler.ts:48-53 | a field whose default is 0 is non-zero exactly when its parameter carries a non-zero numeral |
| TagIndexLinkHandler.AbsentFieldIsDefault | src/core/tag/providers/index-link-handler.ts:48-54 | an absent parameter leaves its field at the default |
| TagIndexLinkHandler.DecodeNumberOfNumberToString | src/core/tag/providers/index-link-handler.ts:38 | a parameter written as the decimal numeral of n decodes to n, or to the default when n is 0 |
| TagIndexLinkHandler.NumericFieldOfNumber | src/core/tag/providers/index-link-handler.ts:38 | a numeric field whose parameter is the decimal numeral of n is n, or its default when n is 0 |
| TagIndexLinkHandler.RunAction | src/core/tag/providers/index-link-handler.ts:46-64 | running the action makes one navigation, to the site it is given; the search page gets the empty object, and the index pages get the decoded record |
| TagIndexLinkHandler.RoutesToSearchIff | src/core/tag/providers/index-link-handler.ts:57-58 | the search page opens exactly when `id` has no non-zero numeral and either `tag` is absent or empty or `tc` has no non-zero numeral |
| TagIndexLinkHandler.RoutesToAreaIff | src/core/tag/providers/index-link-handler.ts:59-60 | the area page opens exactly outside the search case when `ta` has a non-zero numeral, and then gets the whole record |
| TagIndexLinkHandler.RoutesToIndexIff | src/core/tag/providers/index-link-handler.ts:61-62 | the general index page opens exactly outside the search case when `ta` has no non-zero numeral, and then gets the whole record |
| TagIndexLinkHandler.TagNameAndCollectionAvoidSearch | src/core/tag/providers/index-link-handler.ts:57 | a non-empty tag name with a non-zero collection avoids the search page, even with no `id` |
| TagIndexLinkHandler.GetActions | src/core/tag/providers/index-link-handler.ts:43-65 | getActions returns exactly one action, which holds the URL's parameters |
| TagIndexLinkHandler.GetActionsIgnoresContext | src/core/tag/providers/index-link-handler.ts:43-65 | the sites, URL, course and extra data passed to getActions do not change what the action does |
| TagIndexLinkHandler.IsEnabled | src/core/tag/providers/index-link-handler.ts:78-80 | isEnabled returns the tag provider's availability answer for the site, unchanged, whatever the URL, parameters and course |
| TagIndexLinkHandler.RecZeroIsOne | src/core/tag/providers/index-link-handler.ts:54 | `rec=0` gives `recursive` 1 |
| TagIndexLinkHandler.TrailingTextIgnored | src/core/tag/providers/index-link-handler.ts:48 | `id=5abc` gives `tagId` 5 |
| TagIndexLinkHandler.HexPrefixIsZero | src/core/tag/providers/index-link-handler.ts:48 | `id=0x10` gives `tagId` 0 |
| TagIndexLinkHandler.IdOnlyOpensIndexPage | src/core/tag/providers/index-link-handler.ts:57-62 | `{id: n}` written as a decimal numeral, with n non-zero, such as `{id: "5"}`, opens the general index page with `tagId` n and every other field at its default |
| TagIndexLinkHandler.TagNameWithCollection | src/core/tag/providers/index-link-handler.ts:57-62 | `{tag: name, tc: String(c)}` with a non-empty name, c non-zero and no `id`, such as `{tag: "php", tc: "2"}`, opens the general index page with `tagId` 0, that `tagName` and `collectionId` c |
| TagIndexLinkHandler.ZeroIdEmptyTagSearches | src/core/tag/providers/index-link-handler.ts:57-58 | `{id: "0", tag: "", tc: "0"}` opens the search page with no parameters |
| TagIndexLinkHandler.IdWithAreaOpensAreaPage | src/core/tag/providers/index-link-handler.ts:59-60 | `{id: String(i), ta: String(a)}` with i and a non-zero, such as `{id: "5", ta: "7"}`, opens the area page with `tagId` i and `areaId` a |

## Left out

- The navigation controller (`navCtrl`) is not modelled. The `goInSite` call of the link helper is returned as a value instead of being performed.
- Angular dependency injection, the constructor, and the base class `CoreContentLinksHandlerBase` are framework code that is not part of this model. `name` is kept only as the constant `HandlerName`.
- IsEnabled: the tag provider's `areTagsAvailable` is a function parameter that returns a plain boolean. It may return a promise, and that waiting is not modelled.
- Number precision: parsed values are unbounded integers. A double loses precision above 2^53, and very long numerals round; the model does not reproduce this.
- NumberToString: for |n| ≥ 10^21 JavaScript's `String(n)` writes exponent notation (`1e+21`), which `parseInt` reads as its leading digits (1); the model writes every digit, so `ParseIntOfNumberToString`, `DecodeNumberOfNumberToString`, `NumericFieldOfNumber` and the worked cases built on them describe `String(n)` only below 10^21.
- Parameter values are strings or absent. Other value types (`{id: 1}` coerced by `String()`) are covered only for integers, through `NumberToString`. `tag || ''` on a non-string value is not modelled.
- Strings are sequences of Unicode scalar values, not UTF-16 code units. Every white-space character and digit that `parseInt` checks is a single code unit, so this does not change the result. Lone surrogates cannot be written.
- The regular expression engine is not modelled in general. The pattern is a literal string, so matching is a search for that string.
- The `getActions` arguments `siteIds`, `url`, `courseId` and `data` are accepted but never read. `GetActionsIgnoresContext` states that they have no effect.
