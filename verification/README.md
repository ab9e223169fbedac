# Storefront coursework pages — a Dafny model

This project models the page logic of a small storefront made of six browser
scripts:

- **Search and cart page** (`cart-addon.js`):
  - a cart of lines keyed by numeric product id;
  - add, remove and the clamped quantity edit;
  - the case-insensitive catalog filter;
  - the Add/Update form's `formToJSON` check;
  - the submit handler, which reuses or appends a catalog product;
  - the checkout array with zero-padded ids.
- **Product page** (`product.js`):
  - six field validators, with recognisers for the price and weight patterns;
  - `toMoney`;
  - the product document;
  - an in-memory store keyed by product id, with submit, search, update and clear.
- **Shopper page** (`shopper.js`):
  - the trimmed shopper record;
  - the ordered error list of `validateShopper`;
  - the e-mail and phone patterns;
  - the append-only shopper list with show-latest and clear.
- **Signup page** (`validation.js`): four validators, and the submit decision with its first-invalid focus.
- **Billing and returns controllers** (`app.js`):
  - the billing payload;
  - the returns list with a guarded add, `splice` removal, clear and submit.
- **Shipping page** (`shipping-addon.js`):
  - `val`;
  - `requiredFieldsOk`, which stops at the first empty field;
  - the seven-field shipping record.

The JavaScript semantics the pages rely on are written out:

- `String.prototype.trim` (module `Text`), with the exact ECMAScript whitespace and line-terminator set.
- `Number(string)` (module `JsNumbers`): the StringNumericLiteral grammar of section 7.1.4.1.1 of ECMA-262, with exact real values.
- Truthiness, `||`, `+`, `<` and `Math.max` on numbers, including NaN and the infinities.
- `padStart`.
- `Object.fromEntries` (the first position of a key, its last value).
- The ascending visiting order of integer-like keys. This is the OrdinaryOwnPropertyKeys rule, section 10.1.11.1 of ECMA-262.
- `Array.prototype.splice` start clipping.

Validity marks on inputs (`is-invalid`/`is-valid`) are modelled as booleans.

Modules:

- `Wrappers`: `Option`, first-index search, subsequence.
- `Text`: trim, ASCII lower case, `includes`, digit strings, `padStart`.
- `JsNumbers`: the number type, `Number(string)` and the operators.
- `EmailPattern`: the e-mail pattern shared by the shopper and signup pages.
- One module per page: `Cart` and `CartForm`, `Products`, `Shoppers`, `Signup`, `Billing` and `Returns`, `Shipping`.

## Model

| member | source | states |
|---|---|---|
| Cart.FindProduct | cart-addon.js:110 | `products.find` by id: the first catalog product with that id, and None exactly when no product has it |
| Cart.AddLine | cart-addon.js:109-117 | an unknown id leaves the lines alone; a catalog id gets exactly one line whose qty is the old qty (0 when absent) plus `q`; a new line copies the product's id, name and price; an existing line keeps its name and price; every other line is unchanged |
| Cart.AddToCart | cart-addon.js:109-119 | keeps the cart representation valid (one line per id, ids visited in ascending order); an id not in the catalog leaves the cart unchanged; a catalog id's key is added; with a quantity of at least one, every line keeps a quantity of at least one |
| Cart.AddLineTouchesOne | cart-addon.js:113-116 | adding a catalog product adds or changes its own line and leaves every other line as it was |
| Cart.AddLineAtLeastOne | cart-addon.js:113-116 | adding a quantity of at least one to lines that all hold at least one keeps every line at one or more |
| Cart.AddLineCommutes | cart-addon.js:113-116 | adding two different ids in either order gives the same lines |
| Cart.AddToCartCommutes | cart-addon.js:63-119 | adding two different ids in either order gives the same cart, visiting order included, because `Object.values` orders integer keys by value |
| Cart.IncreasingUnique | cart-addon.js:63 | two ascending key orders with the same keys are equal: the visiting order depends on the key set alone |
| Cart.InsertSorted | cart-addon.js:113-114 | a new key is inserted so that the visiting order stays ascending and holds exactly the old keys plus the new one |
| Cart.RemoveSorted | cart-addon.js:123 | the deleted key leaves the ascending visiting order, which keeps every other key; deleting an absent key changes nothing |
| Cart.RemoveFromCart | cart-addon.js:122-125 | `delete cart[id]` removes exactly that key; the other lines are unchanged; removing an absent id is a no-op; the at-least-one quantity invariant is kept |
| Cart.EditedQty | cart-addon.js:100 | `Math.max(1, Number(v) \|\| 1)` of the typed text |
| Cart.EditQuantity | cart-addon.js:98-105 | an id not in the cart is ignored; the edited line gets `Math.max(1, Number(v) \|\| 1)`: the parsed value when it is at least one, else 1; its name and price and all other lines are unchanged; the quantity is never below one |
| Cart.FilterMatching | cart-addon.js:131-133 | the kept products are an in-order subsequence of the catalog; a product occurs in the result exactly as often as in the catalog when it matches the term, and not at all otherwise |
| Cart.FilterProducts | cart-addon.js:128-134 | a blank or whitespace term returns the whole catalog; otherwise an in-order subsequence of the catalog holding every product whose lower-cased name or category contains the trimmed, lower-cased term, as many times as the catalog does, and no other product |
| Cart.ZfillId | cart-addon.js:15-34 | the id as decimal digits, left-padded with '0' to at least three characters; ids of three or more digits are unchanged; the digits read back as the id |
| Cart.ZfillIdInjective | cart-addon.js:34 | different ids get different padded strings |
| Cart.CartItems | cart-addon.js:157-165 | one checkout entry per cart line, in visiting order; each holds `zfillId` of its line's id, and the line's name, price and quantity |
| Cart.CartItemsOnePerLine | cart-addon.js:157-165 | the entries' ids are strictly ascending, and a key is in the cart exactly when some entry carries it |
| CartForm.Put | cart-addon.js:141-142 | assigning a property sets that one value only; an existing property keeps its place and a new one goes last |
| CartForm.LastIndex | cart-addon.js:138 | the position of the last entry with a given name, or None when no entry has it |
| CartForm.LastValue | cart-addon.js:138 | the value `Object.fromEntries` keeps for a key is the value of its last entry; None exactly when no entry has that name |
| CartForm.FirstIndexOf | cart-addon.js:138 | the position of the first entry with a given name, or None when no entry has it |
| CartForm.FromEntries | cart-addon.js:138 | the `data` object has exactly the field names that occur, each once, with the value of the field's last entry, and its properties ordered by where each name first occurs |
| CartForm.CastField | cart-addon.js:141-142 | an absent field is not created; a present one is replaced by `Number(value)` in place; other fields are unchanged |
| CartForm.FalsyKeys | cart-addon.js:145 | the falsy fields, in property order: a field is listed exactly when its value is falsy |
| CartForm.CastData | cart-addon.js:138-142 | after the casts, price and quantity hold `Number` of their last entry and every other field its last text value; the property order is still that of first occurrence |
| CartForm.CastFieldsValues | cart-addon.js:140-142 | casting price and then quantity leaves every property holding the value the entries predict |
| CartForm.FormToJson | cart-addon.js:137-148 | the data's properties follow the first occurrence of each field name; `missing` lists, in that order, exactly the fields whose value is falsy after the casts; `ok` holds exactly when `missing` is empty |
| CartForm.FormOkIff | cart-addon.js:145-147 | the form is ok exactly when no field is falsy after casting price and quantity |
| CartForm.ZeroPriceIsMissing | cart-addon.js:141-145 | a price of "0" is reported missing |
| CartForm.NonNumericPriceIsMissing | cart-addon.js:141-145 | a non-numeric price becomes NaN and is reported missing |
| CartForm.BlankPriceIsMissing | cart-addon.js:141-145 | a whitespace-only price becomes 0 and is reported missing |
| CartForm.FalsyPriceIsMissing | cart-addon.js:141-147 | a price whose number is falsy (0 or NaN) is reported missing and the form is rejected |
| CartForm.BlankNameIsNotMissing | cart-addon.js:145 | a product name of one space is not reported missing, because text is not trimmed |
| CartForm.FindByName | cart-addon.js:211-213 | the first catalog product whose lower-cased name equals the lower-cased submitted name, and None exactly when there is none |
| CartForm.PlaceProduct | cart-addon.js:211-224 | a case-insensitive name match reuses that product's id with the catalog unchanged; otherwise exactly one product with the drawn id, the name, category and price is appended; either way the old catalog is a prefix and the id names a catalog product |
| CartForm.SubmitCartForm | cart-addon.js:197-227 | the cart stays valid and the catalog non-empty; the form is rejected exactly when `formToJSON` is not ok; a product is added exactly when the form is ok and carries a product name |
| CartForm.SubmitRejected | cart-addon.js:200-213 | a rejected form shows the missing fields and changes nothing; an ok form without a product name shows its JSON and then stops with the page unchanged |
| CartForm.SubmitAdds | cart-addon.js:208-226 | an accepted form shows its data; a case-insensitive name match reuses that product's id and leaves the catalog alone; otherwise exactly one product with the drawn id, the name, the category and `Number(price)` is appended; the cart gets that id with `Number(quantity) \|\| 1` |
| CartForm.SubmitGrowsCatalog | cart-addon.js:211-224 | after an accepted submit the old catalog is a prefix of the new one, and the added id is found in it |
| CartForm.SubmitTouchesOneLine | cart-addon.js:226 | an accepted submit adds or changes the line of the added id only |
| CartForm.QuantityFallback | cart-addon.js:226 | on an accepted form `addToCart` receives `Number` of the typed quantity whenever the field is present, because a falsy one would have been reported missing; 1 is passed only when the form has no quantity field |
| CartForm.NegativeQuantityReachesCart | cart-addon.js:226 | a quantity of "-3" survives `\|\| 1`, so a new line holds -3 and the at-least-one invariant no longer holds |
| CartForm.DrawnIdCollision | cart-addon.js:214-226 | when the drawn id already belongs to a catalog product, the new product is appended but the cart line is built from the older product with that id |
| Products.Required | product.js:42-61 | `validateId`, `validateDescription`, `validateCategory`, `validateUom`: the trimmed value is non-empty |
| Products.PriceOk | product.js:62-67 | `validatePrice`: the trimmed value is non-empty and is a price literal |
| Products.WeightOk | product.js:68-73 | `validateWeight`: the trimmed value is empty or a weight pattern |
| Products.Validate | product.js:109-116 | the six marks are the six validators' results, each computed whatever the others give |
| Products.PriceLiteralIff | product.js:22 | the price recogniser accepts exactly the strings `^\d+(?:\.\d{1,2})?$` matches |
| Products.WeightPatternIff | product.js:24 | the weight recogniser accepts exactly the strings made of word characters, digits, '.', '-' and whitespace (the empty string included) |
| Products.ValidateMeaning | product.js:42-73 | id, description, category and unit are valid exactly when not blank; the price exactly when its trimmed value matches the price pattern; the weight exactly when its trimmed value is empty or has weight characters only |
| Products.ToMoney | product.js:83-88 | the result is a money string (canonical digits, a point, two digits) with the same number of cents as the input |
| Products.MoneyCanonical | product.js:87 | a money string is the one rendering of its cents |
| Products.MoneyUnique | product.js:87 | two money strings with the same cents are equal |
| Products.ToMoneyIdempotent | product.js:83-88 | normalising an already normalised price changes nothing |
| Products.ToMoneyExample | product.js:83-88 | "19.9" becomes "19.90" |
| Products.ToMoneyKeepsTwoPlaces | product.js:83-88 | "19.99" is already a money string and is stored as typed |
| Products.WordPriceRejected | product.js:62-67 | the price "abc" fails the price check |
| Products.PriceNumberValue | product.js:85 | `Number` of a valid price is exactly its cents divided by 100 |
| Products.ToMoneyKeepsValue | product.js:83-88 | the normalised price reads back as the same number |
| Products.BuildDoc | product.js:90-99 | the document's key is the trimmed id |
| Products.BuildDocMeaning | product.js:90-99 | every field of the document is trimmed; the price is normalised with its value kept; a blank weight becomes null |
| Products.Submit | product.js:106-131 | all six validators are evaluated and their marks returned; a failing form stores and shows nothing; a valid one sets `store[id] = doc`, overwriting that key only, and shows the document |
| Products.SubmitKeepsStoreOk | product.js:123-126 | every stored document stays well formed and filed under its own id |
| Products.SubmitTwiceIsOnce | product.js:126 | submitting the same form twice leaves the store as one submit does |
| Products.Update | product.js:180-211 | a blank id, an unknown id or an invalid form leaves the store unchanged and says which; otherwise only that key is replaced by the rebuilt document |
| Products.UpdateKeepsKeys | product.js:187-207 | an update never adds or removes a key, and changes no other key |
| Products.UpdateKeepsStoreOk | product.js:206-207 | every stored document stays well formed and filed under its own id |
| Products.Search | product.js:154-178 | a blank key and an unknown key are reported; a stored key loads that document's fields into the form, with a null weight as ""; the six inputs are then marked valid, which `Products.ReloadValid` shows is what the validators would give |
| Products.Reload | product.js:167-172 | the form fields receive the stored document's fields, a null weight as "" |
| Products.ReloadTrimmed | product.js:167-172 | the loaded form holds the document's values, already trimmed |
| Products.ReloadValid | product.js:167-175 | a loaded document passes every validator |
| Products.LoadedFormRebuilds | product.js:90-172 | rebuilding the document from a loaded form gives the same document |
| Products.SearchThenUpdateIsNoop | product.js:154-211 | updating right after a search succeeds and leaves the store as it was |
| Products.Clear | product.js:213-216 | the store is emptied |
| Products.ClearThenSearchNotFound | product.js:154-214 | after clear-all no search finds a product |
| EmailPattern.IsEmail | shopper.js:20 | the e-mail recogniser: split at the first '@'; both parts non-empty and free of whitespace and '@', the domain with an inner '.' |
| EmailPattern.IsEmailIff | shopper.js:20 | the recogniser accepts exactly the strings `^[^\s@]+@[^\s@]+\.[^\s@]+$` matches: no whitespace, one '@', a non-empty local part, and a domain with a '.' that has text on both sides |
| EmailPattern.IsEmailSound | shopper.js:20 | every accepted string matches the pattern |
| EmailPattern.IsEmailComplete | validation.js:14 | every string the pattern matches is accepted |
| Shoppers.BuildShopper | shopper.js:24-32 | each of the five fields is `trim` of its own input value, so all are trimmed and none is longer than its input |
| Shoppers.BuildShopperFixed | shopper.js:24-32 | building from inputs that already hold a trimmed shopper gives it back |
| Shoppers.IsPhone | shopper.js:21 | `^\d{3}-\d{3}-\d{4}$`: twelve characters, dashes at positions 3 and 7, digits elsewhere |
| Shoppers.PhoneSplits | shopper.js:21 | a matching phone number is three, three and four digits joined by dashes |
| Shoppers.PhoneJoins | shopper.js:21 | three, three and four digits joined by dashes always match |
| Shoppers.RunChecks | shopper.js:38-47 | an error is pushed exactly when its check fails, and the errors keep the order of the checks |
| Shoppers.ValidateShopper | shopper.js:35-55 | the error list names exactly the failing checks, each once, in check order: blank first name, last name, e-mail, then e-mail format only for a non-blank e-mail, then phone format only for a non-blank phone |
| Shoppers.InCheckOrderUnique | shopper.js:36-47 | two lists in check order with the same errors are equal, so the error set fixes the list |
| Shoppers.ShopperMarks | shopper.js:50-53 | first and last name green when non-empty; e-mail green when non-empty and matching; phone green when empty or matching |
| Shoppers.ValidIffAllMarksGreen | shopper.js:50-55 | the shopper is valid exactly when all four outlines are green |
| Shoppers.BlankEmailOneError | shopper.js:41-44 | an empty e-mail yields the missing error and no format error |
| Shoppers.LoyaltyIdUnchecked | shopper.js:35-55 | the loyalty id never affects the errors |
| Shoppers.BlankFormErrors | shopper.js:24-47 | a form of blanks yields exactly the first-name, last-name and e-mail missing errors, in that order |
| Shoppers.ShowLatest | shopper.js:95-102 | the placeholder exactly when the list is empty, otherwise the last shopper |
| Shoppers.SubmitShopper | shopper.js:114-132 | an invalid shopper leaves list and panel unchanged; a valid one is appended at the end and shown |
| Shoppers.SubmitKeepsListOk | shopper.js:117-123 | only trimmed, valid shoppers are ever in the list |
| Shoppers.SubmitThenShowLatest | shopper.js:123-135 | after a valid submit, show-latest shows the shopper just added |
| Shoppers.ClearShoppers | shopper.js:138-142 | the list is emptied and the panel says all were cleared |
| Shoppers.ClearThenShowLatest | shopper.js:95-139 | after clear-all, show-latest shows the placeholder |
| Signup.UsernameOk | validation.js:30-34 | `validateUsername`: the value is not blank |
| Signup.EmailOk | validation.js:35-40 | `validateEmail`: the trimmed value is not blank and matches the e-mail pattern |
| Signup.PasswordOk | validation.js:41-45 | `validatePassword`: the value is not blank |
| Signup.ConfirmOk | validation.js:46-50 | `validateConfirmPassword`: the confirmation is not blank and equals the password exactly, untrimmed |
| Signup.NonEmptyIff | validation.js:15 | a value is non-empty exactly when it is present and not only whitespace |
| Signup.EmailOkIff | validation.js:35-39 | the e-mail is valid exactly when its trimmed value matches the e-mail pattern |
| Signup.Position | validation.js:74 | each field's position in the order username, e-mail, password, confirmation |
| Signup.Marks | validation.js:62-67 | the four marks, in focus order, are the four validators' results |
| Signup.SubmitSignup | validation.js:62-83 | every validator runs and each field's mark is its validator's result, whatever the other fields hold; the banner shows exactly when all four pass; otherwise the focused field is marked invalid and every field before it in the order is marked valid |
| Signup.ConfirmIsExact | validation.js:46-49 | the confirmation is compared untrimmed: "abc " does not confirm "abc", and with the other fields valid the confirmation gets the focus |
| Signup.BlankPasswordRejected | validation.js:41-44 | a whitespace-only password is invalid |
| Signup.BlankUsernameFocused | validation.js:30-76 | a blank username always receives the focus |
| Billing.SubmitBilling | app.js:7-14 | the payload regroups the eleven form fields into shopper, billing and payment, and flattening it gives the form back unchanged |
| Billing.SubmitBillingOfFlatten | app.js:8-12 | every payload is the regrouping of its own flattened form |
| Billing.SubmitBillingInjective | app.js:8-12 | different forms give different payloads |
| Returns.QtyRejected | app.js:29 | `!p.qty \|\| p.qty < 1`: the quantity is falsy, or it converts to a number below 1 |
| Returns.AddReturn | app.js:29 | a falsy quantity or one below 1 leaves the list unchanged; otherwise exactly one line `{sku, name, Number(qty), reason or ''}` is appended; no line's quantity compares below one |
| Returns.MissingOrZeroQtyRejected | app.js:29 | a missing, null, zero or empty quantity is rejected |
| Returns.TextQtyAccepted | app.js:29 | non-numeric text passes the guard and is stored as NaN |
| Returns.SpliceStart | app.js:30 | splice's start index: a negative index counts from the end, and both kinds are clipped to the list |
| Returns.RemoveReturn | app.js:30 | exactly the one element at the start index is removed, and the rest keep their order; an index at or past the end removes nothing |
| Returns.RemoveReturnInverse | app.js:30 | putting the removed line back at its index restores the list |
| Returns.RemoveKeepsBound | app.js:30 | removing a line keeps every other line's quantity bound |
| Returns.ClearAll | app.js:31 | the list is emptied and the panel shows `{ }` |
| Returns.SubmitReturns | app.js:32 | the payload is the current list under the shopper id 'demo-123', and the list is kept |
| Returns.ClearThenSubmit | app.js:31-32 | submitting after clear-all sends an empty list |
| Shipping.Val | shipping-addon.js:15-17 | the value is `trim` of the element's text, or "" when the element is absent |
| Shipping.ValNonEmptyIff | shipping-addon.js:15-17 | the value is non-empty exactly when the element exists and holds more than whitespace |
| Shipping.ValIdempotent | shipping-addon.js:15-17 | reading back a value already read gives it unchanged |
| Shipping.RequiredFieldsOk | shipping-addon.js:26-37 | the result is true exactly when every value is non-empty, and then every mark is cleared; on failure exactly the first empty field is marked, earlier marks are cleared and later ones untouched |
| Shipping.ReadRecord | shipping-addon.js:50-58 | each of the seven values is `val` of its own input, so all are trimmed |
| Shipping.ReadRecordFixed | shipping-addon.js:50-58 | reading inputs that hold a trimmed record gives it back |
| Shipping.SubmitShipping | shipping-addon.js:46-83 | a missing input element throws before any mark changes; otherwise the record is shown exactly when all seven values are non-empty, with every mark cleared, and else nothing is shown, the first empty field is marked, earlier marks are cleared and later ones untouched |
| Text.Trim | shipping-addon.js:16 | `trim`: the result has no leading or trailing whitespace and is no longer than the input |
| Text.TrimEmptyIff | shipping-addon.js:16 | `trim` gives "" exactly when the string is all whitespace |
| Text.TrimIdempotent | shopper.js:26-30 | trimming twice is trimming once |
| Text.TrimPadded | product.js:92-97 | trimming a trimmed text with whitespace on both sides gives that text back |
| Text.PadStart | cart-addon.js:34 | `padStart`: the string is kept as the suffix, and fill characters are added in front up to the width |
| Text.ToLower | cart-addon.js:129 | lower-casing keeps the length and maps each character |
| Text.IncludesIff | cart-addon.js:132 | `includes` holds exactly when the needle occurs at some position |
| JsNumbers.ToNumber | cart-addon.js:141-142 | `Number(string)`: surrounding whitespace ignored, blank is 0, a numeric literal its value, anything else NaN |
| JsNumbers.Max | cart-addon.js:100 | `Math.max` is NaN exactly when an argument is NaN, and otherwise is one of its arguments and not below either |
| JsNumbers.ToNumberOfDigits | cart-addon.js:141-142 | `Number` of a decimal digit string is its value |
| JsNumbers.ToNumberOfNegativeDigits | cart-addon.js:226 | `Number` of '-' followed by digits is the negated value |
| JsNumbers.ToNumberOfWord | cart-addon.js:141 | `Number` of a word that cannot start a numeric literal is NaN |
| JsNumbers.BlankIsFalsy | cart-addon.js:141-145 | `Number` of a blank string is 0, which is falsy |

## Behaviour worth noting

- Cart quantities are not always at least one. The cart submit handler passes `Number(quantity) || 1`, which keeps a negative quantity (`CartForm.NegativeQuantityReachesCart`).
- The shopper list only grows by appending. A shopper is never looked up or replaced by key.
- The product page's clear-all empties the store only. The form and the JSON panel keep their contents.
- The signup page builds no record. Its submit handler only marks the four fields and decides between the success banner and the focus.
- The shipping page's required-field list names the inputs through their global element ids, so a missing input element makes the submit handler throw before any field is marked (`Shipping.SubmitShipping`).

## Left out

- Rendering is left out: `renderSearchRows`, the HTML of `renderCart`, `renderTable`, `resetFormVisuals`, feedback texts, `alert`, `focus` and `$applyAsync`. Validity marks appear only as booleans.
- `fmt`, the cart subtotal `price*qty`, the running total and the rounded `total` of `cartItemsArray` are left out. They are floating-point display values.
- Cart.CartItems: the entry's `total` field is not modelled, because it is a floating-point product rounded by `toFixed(2)`.
- JsNumbers: numbers are exact reals, with no IEEE-754 rounding and no overflow to Infinity for huge literals.
- Text.ToLower: only ASCII letters are lower-cased. The Unicode case mapping of `toLowerCase` is not modelled.
- `sendCart`, `fetch`, the commented-out product `$.ajax`, and the shipping page's AJAX button are left out. They are network stubs.
- `JSON.stringify` formatting is left out. Every panel holds the value it would print.
- `Math.random()` at cart-addon.js:214 is the parameter `newId`, with the only fact used being `newId < 1000000`.
- CartForm.SubmitCartForm: the form must carry a `category` field. Without one the source appends a product whose category is `undefined`. The same submit then throws at cart-addon.js:223 when the trimmed, lower-cased search term is non-blank and not contained in the new product's lower-cased name: the filter at cart-addon.js:132 reads `p.category.toLowerCase()` only after the name test fails. Any later search with such a term throws likewise. That product shape and the throw are not modelled.
- CartForm.SubmitCartForm: the catalog is required to be non-empty. The page starts with five products and never removes one. With an empty catalog `find` would not throw on a missing name.
- CartForm.FromEntries: form field names that look like array indices are not moved to the front as JavaScript would. The cart form's field names are all words.
- Products.ToMoney: only strings the price pattern accepts are modelled, since `toMoney` is only reached after `validatePrice` passed. The NaN pass-through and exponent output for huge numbers are not modelled. A price literal with more significant digits than a double holds (about 16) keeps its exact cents here, where `Number(n).toFixed(2)` would round it.
- Live validation handlers (`input`/`change` listeners in product.js and validation.js, including the confirmation re-check when the password changes) are left out. Their results are overwritten by the submit handlers, which are modelled.
- The `#btnClear` reset and checkout button of the cart page are left out. The first only clears the form and panels. The second prints `cartItemsArray`, which is modelled.
- The product page's `setValid`/`setInvalid` messages and `aria-invalid` attributes are left out.
- Signup.NonEmpty takes an optional value to cover `v \|\| ""`. The page only ever passes input values, which are never missing.
- The returns page's `vm.products` table and `vm.query` filter are left out. They are only bound to the view.
