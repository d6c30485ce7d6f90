# Checkout amounts and test data of a storefront test suite

This project models the two pieces of logic in a Playwright test suite for a demo
storefront that do more than drive a browser. It proves properties about both.

- **Test data** (`helpers.dfy`, module `Helpers`, from `utilities/helpers.ts`).
  - The fixed table of test accounts (`testUsers`).
  - The random string generator `generateRandomString(length, uppercase, lowercase, numbers, symbols)`.
    It first pushes the code range of each selected character class, in the fixed order
    A–Z, a–z, 0–9, `!`–`/`, and falls back to a–z when no class is selected. It then runs a
    loop that appends `length` characters. For each character it picks a range, then an
    offset inside that range.
  - The generator is an imperative method with a loop. It is proved against the
    specification functions `Ranges` and `CharFor`.
  - The two `Math.random()` values one iteration consumes are an input: a sequence of
    `Draw`s, each two reals in [0, 1).
- **Amount reader of the checkout review page** (`checkout_step_two.dfy`, module
  `CheckoutStepTwo`, from `page-objects/checkout-step-two.page.ts`).
  - `getSubtotal`, `getTax` and `getTotal` share one rule. A missing or empty label text
    becomes `"0"`. The leftmost match of `/\$(\d+\.\d+)/` is found, and its capture group
    is the result; with no match the result is 0.
  - One pure function, `ExtractAmount`, models all three getters.
  - The regular expression is modelled twice: as a scanner (`MatchAt`, `Search`) and as a
    declarative description of a match (`MatchesAt`). Both directions are proved equivalent.
  - The number is an exact decimal (`Decimal(mantissa, scale)`, meaning
    mantissa / 10^scale), not a float. `"2.40"` reads as `Decimal(240, 2)`, whose value
    is 2.4, the number `parseFloat("2.40")` approximates.
  - The fallback is `Zero`, the decimal 0 with no fractional digits. A matched amount of
    zero such as `"$0.00"` reads as `Decimal(0, 2)`, which differs from `Zero`, although its
    value is also 0. The number the getters return cannot tell the two apart.

## Model

| member | source | states |
|---|---|---|
| Helpers.TestUser | utilities/helpers.ts:5-12 | An entry's password is `secret_sauce` exactly when the role is not the invalid user; the valid user is `standard_user` |
| Helpers.TestUsersTable | utilities/helpers.ts:5-12 | The table has five entries, one per role, with no role repeated and no two user names equal |
| Helpers.Ranges | utilities/helpers.ts:33-55 | The range list is never empty and holds only the four classes. Each class is in it exactly when its flag is set; lowercase also when no flag is set. With no flag set the list is exactly [a–z] |
| Helpers.RangesInPushOrder | utilities/helpers.ts:33-49 | The selected ranges appear in push order (upper, lower, numbers, symbols), each at most once |
| Helpers.AllowedIffInSelectedRange | utilities/helpers.ts:35-55 | A character lies in the union of the selected code ranges exactly when it is a letter, digit or symbol of a selected class (a–z when none is selected) |
| Helpers.SelectRanges | utilities/helpers.ts:33-55 | The push sequence and fallback build exactly `Ranges(o)` |
| Helpers.Scale | utilities/helpers.ts:63-74 | `floor(roll * n)` for a roll in [0, 1) is a valid index below `n` |
| Helpers.CharFor | utilities/helpers.ts:63-79 | The character one iteration produces, `min + floor(roll * size)`, lies inside one of the ranges it picks from |
| Helpers.NextChar | utilities/helpers.ts:62-79 | The loop body's step-by-step computation yields `CharFor` of its draw, a character inside a listed range |
| Helpers.GenerateRandomString | utilities/helpers.ts:25-83 | The result has `length` characters (none when `length <= 0`). Each is a character of a selected class, and the i-th is determined by the i-th draw |
| Helpers.DefaultRandomString | utilities/helpers.ts:25-31 | `generateRandomString()` gives 8 lowercase letters |
| Helpers.PostalCode | tests/checkout.spec.ts:41 | `generateRandomString(5, false, false, true)` gives 5 decimal digits |
| Helpers.SelectedClassMayBeAbsent | utilities/helpers.ts:16 | Selecting upper and lower case does not make both appear: draws exist that give only `'a'` |
| CheckoutStepTwo.DigitsValueAppend | page-objects/checkout-step-two.page.ts:43 | The value of two digit strings read one after the other is the first shifted by the length of the second, plus the second |
| CheckoutStepTwo.DigitRun | page-objects/checkout-step-two.page.ts:42 | A greedy `\d+` consumes a run of digits that stops at the end or at a non-digit |
| CheckoutStepTwo.DigitRunExact | page-objects/checkout-step-two.page.ts:42 | Any maximal digit run from a position is the run `DigitRun` finds |
| CheckoutStepTwo.MatchAt | page-objects/checkout-step-two.page.ts:42 | The pattern reports a match at a position only where a '$' stands |
| CheckoutStepTwo.MatchAtSound | page-objects/checkout-step-two.page.ts:42 | A reported match is a real match: '$', digits, '.', digits, and no digit after it |
| CheckoutStepTwo.MatchAtComplete | page-objects/checkout-step-two.page.ts:42 | Every real match at a position is reported there, with the same capture |
| CheckoutStepTwo.Search | page-objects/checkout-step-two.page.ts:42 | A found match is a match at its start, and no position before it holds one; finding none means no position matches |
| CheckoutStepTwo.SearchFindsLeftmost | page-objects/checkout-step-two.page.ts:42 | A match with none before it is the one `match` returns |
| CheckoutStepTwo.NoDollarNoMatch | page-objects/checkout-step-two.page.ts:42 | Positions holding no '$' start no match |
| CheckoutStepTwo.ParseDecimal | page-objects/checkout-step-two.page.ts:43 | The captured number has at least one fractional digit and fewer digits than the capture |
| CheckoutStepTwo.ParseDecimalSplit | page-objects/checkout-step-two.page.ts:43 | `a.b` has the capture's shape and reads as the decimal with mantissa `a * 10^|b| + b` and `|b|` fractional digits |
| CheckoutStepTwo.DecimalValue | page-objects/checkout-step-two.page.ts:43 | That decimal denotes `a + b / 10^|b|`, the number `parseFloat` approximates |
| CheckoutStepTwo.TextOrZero | page-objects/checkout-step-two.page.ts:40 | The scanned text is never empty, and it holds a '$' exactly when the label text did |
| CheckoutStepTwo.ExtractAmount | page-objects/checkout-step-two.page.ts:39-66 | The result is the fallback `Zero` or a decimal with a fractional part read from a text containing '$'; it never fails |
| CheckoutStepTwo.ZeroIffNoMatch | page-objects/checkout-step-two.page.ts:42-43 | The result is the fallback `Zero` (scale 0) exactly when the pattern matches at no position of the scanned text |
| CheckoutStepTwo.NoDollarIsZero | page-objects/checkout-step-two.page.ts:40-43 | Null text, empty text and text without '$' read as the fallback `Zero` |
| CheckoutStepTwo.ExtractNeverNegative | page-objects/checkout-step-two.page.ts:42-43 | No label reads as a negative amount |
| CheckoutStepTwo.SignBeforeDollarExample | page-objects/checkout-step-two.page.ts:42-43 | A minus before the '$' is skipped as label text: `"-$5.00"` reads as 5.00 |
| CheckoutStepTwo.SignAfterDollarExample | page-objects/checkout-step-two.page.ts:42-43 | A minus after the '$' stops the match: `"$-5.00"` reads as the fallback |
| CheckoutStepTwo.ZeroAmountExample | page-objects/checkout-step-two.page.ts:42-43 | `"$0.00"` matches and reads as `Decimal(0, 2)`, not the fallback `Zero` |
| CheckoutStepTwo.ZeroAmountValue | page-objects/checkout-step-two.page.ts:43 | That matched zero and the fallback both have value 0 |
| CheckoutStepTwo.ExtractLeftmost | page-objects/checkout-step-two.page.ts:42-43 | When the leftmost match captures `g`, the getters return the parse of `g` |
| CheckoutStepTwo.DollarAmountMatches | page-objects/checkout-step-two.page.ts:42 | `$a.b` followed by a non-digit or the end is a match at its '$' |
| CheckoutStepTwo.ExtractFirstAmount | page-objects/checkout-step-two.page.ts:42-43 | When `$a.b` is the first match, the getters return `a.b` exactly, whatever follows |
| CheckoutStepTwo.LabelIsSkipped | page-objects/checkout-step-two.page.ts:42-43 | Label text without '$' before `$a.b` is skipped and `a.b` is returned |
| CheckoutStepTwo.DollarWithoutFractionSkipped | page-objects/checkout-step-two.page.ts:42 | A '$' whose digits are followed by neither '.' nor a digit is not a match, and the scan continues after those digits |
| CheckoutStepTwo.SearchSkips | page-objects/checkout-step-two.page.ts:42 | Positions where nothing matches do not change what the scan finds |
| CheckoutStepTwo.RenderRoundTrip | page-objects/checkout-step-two.page.ts:43 | Parsing a printed amount gives the same decimal back |
| CheckoutStepTwo.ExtractRendered | page-objects/checkout-step-two.page.ts:42-43 | A printed amount after '$' and label text is read back exactly |
| CheckoutStepTwo.CommentExample | page-objects/checkout-step-two.page.ts:41-43 | `"$12.34"` reads as 1234 hundredths |
| CheckoutStepTwo.CommentExampleValue | page-objects/checkout-step-two.page.ts:41 | 1234 hundredths is exactly 12.34 |
| CheckoutStepTwo.SubtotalLabelExample | page-objects/checkout-step-two.page.ts:42-43 | `"Item total: $29.99"` reads as 29.99 |
| CheckoutStepTwo.LeftmostExample | page-objects/checkout-step-two.page.ts:42-43 | `"Tax: $2.40 Total: $32.39"` reads as 2.40, the leftmost amount |
| CheckoutStepTwo.WholeDollarsExample | page-objects/checkout-step-two.page.ts:42-43 | `"$12"` does not match and reads as 0 |
| CheckoutStepTwo.LaterAmountExample | page-objects/checkout-step-two.page.ts:42-43 | In `"$12 or $3.45"` the scan passes the whole-dollar '$' and reads 3.45 |
| CheckoutStepTwo.MissingLabelExample | page-objects/checkout-step-two.page.ts:40-43 | A null label and an empty label read as 0 |

## Left out

- Browser automation is not modelled: the Playwright locators, navigation, clicks, `textContent()` and the `finish`/`cancel` actions. The label text is an input (`Option<string>`, `None` for null).
- The other page objects (menu and cart badge, cart, inventory, login, checkout step one and the complete page), the fixtures and the test scenarios are not part of this model.
- `Math.random` is not modelled as a source of randomness. Its results are an input sequence of reals in [0, 1), not IEEE doubles.
- `console.warn` in the lowercase fallback is dropped.
- Helpers.GenerateRandomString: `length` is an integer. A fractional `length`, which the JavaScript loop would round up, is not modelled.
- Helpers.GenerateRandomString: the caller must supply at least `length` draws. This stands for the unbounded supply `Math.random` gives.
- `parseFloat` is not modelled as a float. The model keeps the captured number exact, so the float check `total == subtotal + tax` of the checkout scenario is out of scope.
- `Render`, `Digits`, `PadDigits`, `High` and `Low` are not in the source. They print a decimal the way the storefront shows prices, and serve as the inverse for the round-trip lemmas.
