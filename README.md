# Admin token dashboard — a Dafny model

The dashboard is a single-page admin tool for an anime token service. It loads the list of
users from an admin relay and shows them in a table, with stats cards above it. The admin can
search the table and sort it. For any row the admin can open a dialog that adds tokens to that
user's balance. This project models the two components that hold the dashboard's logic:

- **The page** (`src/pages/Index.tsx`). Its hook state is the class `IndexPage.Page`. Its handlers
  are methods:
  - `LoadUsers` is `loadUsers`.
  - `HandleTopup` is `handleTopup`.
  - The search box, the sort selector, a row's top-up button and `setDialogOpen` are the
    remaining methods.

  Its derived values are pure functions in `UserView`:
  - the `filtered` memo, which filters and then sorts the users;
  - the stats cards' `totalTokens` and `avgTokens`.
- **The top-up dialog** (`src/components/TopupDialog.tsx`). Its state is the class
  `TopupDialog.Dialog`, with fields `amount`, `reason` and `loading`.
  - The dialog's `user`, `open` and `onOpenChange` props belong to the page. The dialog reaches
    them through its `host`.
  - `handleSubmit` is split at its `await` into two methods:
    - `HandleSubmit` covers the guard, setting the in-flight flag, and the `onSubmit` call it makes.
    - `OnSubmitSettled` is what runs once that promise settles.
  - `SubmitThroughPage` wires the two methods to the page's `HandleTopup`.

The JavaScript built-ins the components rely on are written out in `JsText`:
- `String(n)` for integers;
- `includes`;
- `toLowerCase` (ASCII only);
- `parseInt` without a radix, after section 19.2.5 of ECMA-262. It skips leading whitespace,
  reads an optional sign, switches to radix 16 after `0x`, reads the longest digit run, and
  gives NaN (`None`) when there is no digit.

`Array.prototype.sort` with a comparator is `StableSort`, a stable insertion sort. The sort the
browser runs has been required to be stable since ECMAScript 2019. For a comparator that is a total
preorder, the sorted order of a stable sort is uniquely determined. So the proved properties
(a permutation, sorted, and ties kept in input order) pin the result down for the "tokens" and
"id" keys.

Network calls are parameters. A method that follows an `await` receives what the call settled
with: `Api.FetchResult` for `fetchUsers()`, `Api.TopupReply` for `addTokens(...)`, and
`Api.Settlement` for the `onSubmit` promise.

What the code does, proved here:
- A submit that passes the guard always ends with the fields cleared and the dialog closed, even
  when the relay answers `success: false` or the request throws. `handleTopup` reports those
  failures in a toast and never rejects, so the dialog's clean-up after the `await` always runs.
  The list is reloaded only after a successful reply (`TopupDialog.SubmitThroughPage`). So a
  business or transport failure still closes the dialog and discards what was typed.
- The guard `parseInt(amount) < 1` lets through an amount that parses to NaN, because `NaN < 1` is
  false (`TopupDialog.NaNAmountPassesGuard`). Such a submit calls `onSubmit` with a NaN amount.
  The amount field is `type="number"`, but it still accepts values such as `.5` or `-.5`.
  `parseInt` reads both as NaN (`JsText.ParseIntNoDigitIsNaN`), so this path can be reached
  by typing in the field.

## Model

| member | source | states |
|---|---|---|
| `UserView.Matches` | src/pages/Index.tsx:51-54 | the search predicate (name or username containing the lower-cased query, or the id's decimal text containing the raw query); every user matches the empty search |
| `UserView.Filter` | src/pages/Index.tsx:50-55 | the filtered list is no longer than the input and holds only users of the input that match the search |
| `UserView.FilterCount` | src/pages/Index.tsx:50-55 | filtering keeps every matching user with its full multiplicity and drops every non-matching one |
| `UserView.FilterTiedWith` | src/pages/Index.tsx:50-55 | filtering keeps the input order: the matching users tied with any x appear as they do in `users` |
| `UserView.FilterEmptySearch` | src/pages/Index.tsx:52-54 | an empty search keeps the whole list in its order, since every string includes "" |
| `UserView.Comparator` | src/pages/Index.tsx:56-60 | the comparator for each key; for every key except "name" it is a total preorder |
| `UserView.Displayed` | src/pages/Index.tsx:49-62 | the `filtered` memo: the sorted list has the multiset of the filtered list, and holds only users of `users` that match |
| `UserView.DisplayedIsPermutationOfMatches` | src/pages/Index.tsx:49-62 | the table is a permutation of the matching users: each user appears as often as in `users` if it matches, otherwise not at all |
| `UserView.DisplayedEmptySearch` | src/pages/Index.tsx:49-62 | with an empty search the table is a reordering of all users, of the same length |
| `UserView.TokensComparatorIsPreorder` | src/pages/Index.tsx:57 | the "tokens" comparator is a total preorder, and `cmp(a, b) <= 0` exactly when a has at least as many tokens as b |
| `UserView.IdComparatorIsPreorder` | src/pages/Index.tsx:59 | for every key other than "tokens" and "name", the comparator is a total preorder, and `cmp(a, b) <= 0` exactly when a's id is at most b's |
| `UserView.DisplayedByTokens` | src/pages/Index.tsx:56-57 | sorting by "tokens" lists the users in non-increasing order of `tokens \|\| 0` |
| `UserView.DisplayedById` | src/pages/Index.tsx:56-59 | any other key besides "tokens" and "name" lists the users by ascending id |
| `UserView.DisplayedByTokensIsStable` | src/pages/Index.tsx:50-57 | users with equal token counts keep their relative order from the filtered list, which is their order in `users` |
| `UserView.TotalTokens` | src/pages/Index.tsx:64 | the `reduce` of `tokens \|\| 0` over the users; its properties are the lemmas below |
| `UserView.TotalTokensNonNegative` | src/pages/Index.tsx:64 | balances that are never negative give a total that is not negative |
| `UserView.TotalTokensAppend` | src/pages/Index.tsx:64 | the total of a concatenation is the sum of the totals |
| `UserView.TotalTokensPermutation` | src/pages/Index.tsx:64 | the total depends only on which users there are, not on their order |
| `UserView.TotalTokensOfEmptySearchView` | src/pages/Index.tsx:64 | with an empty search, the tokens shown in the table add up to the stats card's total |
| `UserView.AvgTokens` | src/pages/Index.tsx:65 | the average is 0 for no users; otherwise it is the integer nearest to total/n, with halves rounded up (`r - 1/2 <= total/n < r + 1/2`) |
| `UserView.AvgTokensExample` | src/pages/Index.tsx:65 | two users with 10 and 20 tokens average to 15 |
| `StableSort.Insert` | src/pages/Index.tsx:56-60 | inserting adds exactly the one element to the multiset |
| `StableSort.Sort` | src/pages/Index.tsx:56-60 | sorting is a permutation of its input |
| `StableSort.SortLength` | src/pages/Index.tsx:56-60 | sorting keeps the length |
| `StableSort.InsertSorted` | src/pages/Index.tsx:56-60 | inserting into a sorted list keeps it sorted when the comparator is a total preorder |
| `StableSort.SortSorted` | src/pages/Index.tsx:56-60 | for a total-preorder comparator, the result is sorted |
| `StableSort.TiedWithInsert` | src/pages/Index.tsx:56-60 | inserting into a sorted list places the new element after every element tied with it |
| `StableSort.SortStable` | src/pages/Index.tsx:56-60 | the sort is stable: the elements tied with any x keep their input order |
| `IndexPage.Page.constructor` | src/pages/Index.tsx:26-31 | the initial hook state: no users, loading, empty search, sorted by tokens, no selected user, dialog closed |
| `IndexPage.Page.Filtered` | src/pages/Index.tsx:49-62 | the table shows only users of the list that match the search, and with an empty search it shows every user as often as it occurs |
| `IndexPage.Page.Total` | src/pages/Index.tsx:64 | the card's total is over all users; with an empty search it equals the sum over the table |
| `IndexPage.Page.Average` | src/pages/Index.tsx:65 | the card's average is 0 for no users, and otherwise the card's total over the number of users, rounded half up |
| `IndexPage.Page.LoadUsers` | src/pages/Index.tsx:33-43 | a successful fetch replaces the users with `data.users \|\| []`, a failed one leaves them as they were, and loading ends false either way |
| `IndexPage.Page.SetSearch` | src/pages/Index.tsx:133 | the query is stored, and the total and average do not change |
| `IndexPage.Page.SetSortBy` | src/pages/Index.tsx:138 | the key is stored, and the table keeps the same users (the same multiset) and the same aggregates |
| `IndexPage.Page.OpenTopup` | src/pages/Index.tsx:174-177 | the clicked user becomes the dialog's user and the dialog opens |
| `IndexPage.Page.SetDialogOpen` | src/pages/Index.tsx:186 | the dialog's open state becomes the given value |
| `IndexPage.Page.HandleTopup` | src/pages/Index.tsx:67-79 | sends `addTokens` the submitted user id, amount and reason; always resolves; reloads the list exactly when the reply reports success; otherwise leaves users and loading unchanged |
| `TopupDialog.ReasonToSend` | src/components/TopupDialog.tsx:29 | the reason sent is never empty: it is the admin's own reason whenever one was typed, and the default reason otherwise |
| `TopupDialog.Accepts` | src/components/TopupDialog.tsx:26 | the submit guard; when it passes there is a user, the amount is non-empty, and the amount parses to NaN or to at least 1 |
| `TopupDialog.SubmitDisabled` | src/components/TopupDialog.tsx:95 | the button's `disabled` expression; a submit in flight disables it, and an enabled button means the guard passes for any user |
| `TopupDialog.EnabledIffAccepted` | src/components/TopupDialog.tsx:95 | with a user shown and no submit in flight, the button is enabled exactly when `handleSubmit`'s guard passes |
| `TopupDialog.NaNAmountPassesGuard` | src/components/TopupDialog.tsx:26 | a non-empty amount that parses to NaN passes the guard |
| `TopupDialog.EmptyOrZeroRejected` | src/components/TopupDialog.tsx:26 | the amounts "" and "0" never pass the guard |
| `TopupDialog.QuickAmountsPassGuard` | src/components/TopupDialog.tsx:38 | every preset amount written with `String(q)` parses back to q and passes the guard |
| `TopupDialog.Dialog.constructor` | src/components/TopupDialog.tsx:21-23 | the dialog starts with empty fields and no submit in flight |
| `TopupDialog.Dialog.Disabled` | src/components/TopupDialog.tsx:95 | the button is disabled while a submit is in flight; otherwise, with a user shown, it is disabled exactly when the guard rejects |
| `TopupDialog.Dialog.SetAmount` | src/components/TopupDialog.tsx:64 | the amount field takes the typed text |
| `TopupDialog.Dialog.SetReason` | src/components/TopupDialog.tsx:84 | the reason field takes the typed text |
| `TopupDialog.Dialog.PickQuickAmount` | src/components/TopupDialog.tsx:71 | a preset sets the amount to `String(q)`, which `parseInt` reads back as q |
| `TopupDialog.Dialog.Cancel` | src/components/TopupDialog.tsx:90 | cancelling closes the dialog |
| `TopupDialog.Dialog.HandleSubmit` | src/components/TopupDialog.tsx:25-29 | `onSubmit` is called exactly when the guard passes, with the user's id, `parseInt(amount)` and the defaulted reason, and the dialog is then in flight; a rejected submit changes nothing |
| `TopupDialog.Dialog.OnSubmitSettled` | src/components/TopupDialog.tsx:29-35 | on resolve, the fields are cleared and the dialog is closed; on reject, the fields and the open state are kept; the in-flight flag is reset either way |
| `TopupDialog.SubmitThroughPage` | src/components/TopupDialog.tsx:25-36 | a submit that passes the guard sends the user's id, `parseInt(amount)` and the defaulted reason, and ends cleared and closed whatever the reply; the list is reloaded, and the page's loading flag ends false, only after a successful reply, otherwise both are unchanged; a rejected submit changes nothing |
| `JsText.Digits` | src/pages/Index.tsx:54 | the decimal digits of a natural number are non-empty, with no leading zero |
| `JsText.Decimal` | src/pages/Index.tsx:54 | `String(n)` is non-empty and starts with `-` exactly when n is negative |
| `JsText.DigitsAreDecimal` | src/pages/Index.tsx:54 | `String(n)` of a natural number consists of decimal digits only |
| `JsText.Contains` | src/pages/Index.tsx:52-54 | `includes`: the empty query is always included, and an included query is no longer than the string |
| `JsText.ContainsIffOccurs` | src/pages/Index.tsx:52-54 | `includes` holds exactly when the query occurs as a slice of the string |
| `JsText.ContainsOccurs` | src/pages/Index.tsx:52-54 | when `includes` holds, the returned position is an occurrence of the query |
| `JsText.OccursContains` | src/pages/Index.tsx:52-54 | an occurrence at any position makes `includes` hold |
| `JsText.ContainsEmpty` | src/pages/Index.tsx:52-54 | every string includes the empty string |
| `JsText.LowerChar` | src/pages/Index.tsx:52-53 | upper-case ASCII letters map to their lower-case letters; every other character is unchanged |
| `JsText.Lower` | src/pages/Index.tsx:52-53 | lower-casing keeps the length and maps each character independently |
| `JsText.TrimStart` | src/components/TopupDialog.tsx:26 | `parseInt` starts reading at a character that is not white space |
| `JsText.TrimStartRemovesLeadingSpace` | src/components/TopupDialog.tsx:26 | trimming removes a prefix made only of white space, and nothing else |
| `JsText.TrimStartSkips` | src/components/TopupDialog.tsx:26 | any run of white space in front of a text is skipped |
| `JsText.TrimStartNoSpace` | src/components/TopupDialog.tsx:26 | text that does not start with white space is read from its first character |
| `JsText.DigitRun` | src/components/TopupDialog.tsx:26 | the digit run is the longest prefix of radix digits: all within it are digits and the next character is not |
| `JsText.DigitsValueOfDigits` | src/components/TopupDialog.tsx:26 | the value of the digits of n in radix 10 is n |
| `JsText.DigitRunStops` | src/components/TopupDialog.tsx:26 | a run of decimal digits is read up to the first character that is not a digit |
| `JsText.MagnitudeStops` | src/components/TopupDialog.tsx:26 | without a hexadecimal prefix, the magnitude is the value of the leading decimal digits |
| `JsText.MagnitudeOfDigits` | src/components/TopupDialog.tsx:26 | the magnitude read from the digits of n is n |
| `JsText.ParseInt` | src/components/TopupDialog.tsx:26 | `parseInt`; empty or all-white-space text gives NaN |
| `JsText.ParseIntSkipsSpace` | src/components/TopupDialog.tsx:26 | white space in front of a text does not change what `parseInt` reads |
| `JsText.ParseIntUnsigned` | src/components/TopupDialog.tsx:26 | text starting with a digit is read as its magnitude, with no sign |
| `JsText.ParseIntOfDigitsThen` | src/components/TopupDialog.tsx:26 | text of decimal digits followed by a non-digit, without a hexadecimal prefix, is read as the value of the digits |
| `JsText.ParseIntOfDigits` | src/components/TopupDialog.tsx:71 | `parseInt` reads back the digits of any natural number |
| `JsText.ParseIntMinus` | src/components/TopupDialog.tsx:26 | a leading minus sign negates the magnitude read after it |
| `JsText.ParseIntOfNegative` | src/components/TopupDialog.tsx:26 | `parseInt(String(n)) === n` for every negative integer |
| `JsText.ParseIntOfDecimal` | src/components/TopupDialog.tsx:71 | `parseInt(String(n)) === n` for every integer, so a preset amount is read back unchanged |
| `JsText.ParseIntNoDigitIsNaN` | src/components/TopupDialog.tsx:26 | NaN whenever, after the white space and the sign, the text is empty or does not start with a decimal digit |
| `JsText.ParseIntReadsHex` | src/components/TopupDialog.tsx:26 | after `0x` or `0X`, the value is the longest hexadecimal run read in radix 16, or NaN when there is none |
| `JsText.ParseIntBareHexPrefixIsNaN` | src/components/TopupDialog.tsx:26 | `0x` or `0X` followed by anything but a hexadecimal digit gives NaN |
| `JsText.ParseIntStopsAtNonDigit` | src/components/TopupDialog.tsx:26 | for any white space, then decimal digits, then a non-digit (no hexadecimal prefix), the value is that of the digits |

## Left out

- `fetchUsers` and `addTokens` (src/lib/api.ts) are not modelled beyond their outcomes: the HTTP requests, the status check and JSON decoding are I/O. A non-OK status or a network error is the failure alternative of `FetchResult` and `TopupReply`.
- The admin relay (supabase/functions/admin-proxy/index.ts) is not part of this model. It is a separate server process.
- Toast messages are not modelled: they are output only and change no state.
- The rendering of `UserTable` and `StatsCards`, and the spinner and badges, is not modelled.
- `toLowerCase` is modelled for ASCII letters only. The full Unicode case mapping is not modelled.
- `localeCompare` is a parameter of the page about which nothing is assumed. So the "name" sort is proved a permutation of the matches, but no order is claimed for it. With an inconsistent comparator, `Array.prototype.sort` leaves the order implementation-defined.
- Numbers are integers. Floating point is not modelled:
  - non-integer token counts or ids;
  - NaN or Infinity coming from the relay;
  - rounding of sums beyond 2^53, and the precision `parseInt` loses on long digit strings;
  - the value -0, which is the integer 0 here.
- `UserView.AvgTokens`: states `Math.round(total / n)` exactly, via the interval property, for integer totals only. The floating-point division is not modelled.
- The sort works on a fresh copy (`filter` returns a new array), so sorting it in place is not observable. The model sorts a sequence value.
- Asynchrony is sequential here:
  - `handleTopup` calls `loadUsers()` without awaiting it. The model applies the reload before the dialog's clean-up.
  - Interleavings with other handlers, stale responses arriving late, and a second submit before React re-renders the disabled button are not modelled.
  - `loadUsers` sets `loading` to true before the fetch. That intermediate state is set and then overwritten within `IndexPage.Page.LoadUsers`.
- The page's mount effect (src/pages/Index.tsx:45-47) is not modelled as its own member: it is one `LoadUsers` call after the constructor.
- Dismissing the dialog by its overlay or close button (src/components/TopupDialog.tsx:41) is the same `onOpenChange(false)` call as `TopupDialog.Dialog.Cancel`.
- `TopupDialog.Dialog.OnSubmitSettled`: the `Rejected` branch is kept for the dialog on its own. Wired to this page's `handleTopup`, it never occurs.
