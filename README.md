# Multilingual content API: a verified Dafny model

This project models the logic core of a Django REST API that serves
multilingual products, media, carts and users. It models the code as
written and proves properties of it.

- **Translation and media layer** (`strings.dfy`, `values.dfy`, `media.dfy`,
  `translation_write.dfy`, `translation_read.dfy`). The write mixin expands
  each declared translatable field `F` into per-language keys `F_xx`, one for
  every configured language. It also adds one key for each shared media
  field. On create and update it pops the media keys out of the validated
  data and stores every uploaded file as a Media row. Each row is tagged
  with the language whose suffix ends the key and with a media kind taken
  from substrings of the field name. The read mixin rewrites a serialized
  dict:
  - every text field takes its `uz` value;
  - every `F_xx` helper key is removed;
  - media fields are replaced by item dicts looked up in the Media table.

  The write serializer is a class. Its `fields` map is filled by nested
  loops, and its methods loop over keys and files. Each method is proved
  equal to a specification function, and the properties are proved as
  lemmas about those functions.
- **Exception handler** (`handler.dfy`). It covers:
  - dispatch: a custom exception first, then the first mapping entry the
    exception is an instance of, then `UNKNOWN_ERROR`;
  - the alert that the unknown-error path sends;
  - HTML escaping, with a proved round trip;
  - traceback truncation;
  - the alert template, proved to embed the escaped details.
- **Product price receiver** (`signals.dfy`). The `pre_save` rule writes
  `real_price` from `price` and `discount`. It is modelled as written, and a
  corrected version is given beside it.
- **Cart** (`cart.dfy`). It covers:
  - defaults;
  - display strings;
  - the line price;
  - cascade deletion;
  - the serializer field surfaces;
  - quantity validation;
  - item creation, which pops `product_id` in place.
- **Users** (`users.dfy`). It covers:
  - the display string, the full name and the identifier constraint;
  - defaults and column bounds;
  - the backend that logs in by email, username or phone number.
- **Mobile permission** (`permissions.dfy`). A device token is looked up,
  and the found device is attached to the request.
- **Product views** (`product_views.dfy`):
  - serializer selection by HTTP method and device type;
  - the active-product queryset;
  - the valid and invalid branches of create and of update;
  - retrieve and destroy.

  Every save goes through the price receiver as written. Its `ValueError`
  reaches the exception handler.

## Parameters

Several inputs to the source are taken as parameters of the model:

- **Configured languages.** These are taken as a parameter: a sequence of
  `(code, name)` pairs. The four languages of apps/shared/models.py are
  `Values.ExampleLanguages`.
- **Media table order.** Queryset order on the Media table is the order of
  its rows.
- **File URLs.** `file.url` is a function parameter, `urlOf`.
- **File sizes.** `file_size` is the size recorded with the upload.
- **User table order.** `.first()` on the users' queryset orders by primary
  key, because the User model declares no ordering of its own. The user
  sequence the backend searches is listed in primary-key order.
- **Password check.** The password check of the authentication backend is a
  function parameter.
- **Client IP.** The client IP is a field of the request.

## Model

| member | source | states |
|---|---|---|
| Values.KeyEndsWithSuffix | apps/shared/mixins/translation_mixins.py:131-133 | with underscore-free codes, the key of field F in language b ends with the suffix `_a` exactly when a and b agree once lower-cased |
| Values.KeyInjective | apps/shared/mixins/translation_mixins.py:29 | with underscore-free codes, a per-language key determines its field and its language |
| Values.ExampleLanguagesWellFormed | apps/shared/models.py:7-11 | the four configured codes RU, EN, CRL, UZ contain no underscore and stay distinct once lower-cased |
| Strings.RemoveAllTrailing | apps/shared/mixins/translation_mixins.py:135 | removing every occurrence of a suffix that occurs only at the end gives back the base name |
| Media.KindOfIgnoresTrailingS | apps/shared/mixins/translation_mixins.py:214-228 | stripping trailing `s` letters never changes the media kind, so write and read classify a field alike |
| Media.MediaStore.Create | apps/shared/mixins/translation_mixins.py:154-163 | one row is appended with a fresh id, the upload, its name as original filename, `is_public` true, and the given kind and language |
| TranslationWrite.LangKeys | apps/shared/mixins/translation_mixins.py:28-29 | one key `F_<lower code>` per configured language, in settings order |
| TranslationWrite.SameFieldKeys | apps/shared/mixins/translation_mixins.py:29 | two languages give a field the same key exactly when their codes agree once lower-cased |
| TranslationWrite.DistinctFieldKeys | apps/shared/mixins/translation_mixins.py:29 | different fields never share a per-language key |
| TranslationWrite.ExpandKeepsDeclared | apps/shared/mixins/translation_mixins.py:12-74 | every declared field is still a field after the expansion |
| TranslationWrite.ExpandAddsKeys | apps/shared/mixins/translation_mixins.py:20-74 | every key F_xx is added for a translatable media field or for a text field that is declared, and every shared media field gets its own key |
| TranslationWrite.ExpandAddsOnlyManufactured | apps/shared/mixins/translation_mixins.py:12-74 | no key other than the declared ones and the manufactured ones appears |
| TranslationWrite.ExpandSkipsUndeclaredText | apps/shared/mixins/translation_mixins.py:20-56 | for a well-formed declaration, a translatable text field F that is not a field gets no key F_xx (unless F_xx was itself declared): text keys are added only when F is a field |
| TranslationWrite.ExpandFieldsShapes | apps/shared/mixins/translation_mixins.py:20-74 | a translatable media key is a list of files when F ends in `s` and otherwise a nullable single file, optional either way; a text key is required, allows blank and null, and copies the class and max length of F; F itself becomes optional; a shared media key is optional, with the same list rule; every other declared field is unchanged |
| TranslationWrite.WriteSerializer.constructor | apps/shared/mixins/translation_mixins.py:12-74 | the nested loops build exactly the expanded field map |
| TranslationWrite.CandidatesAre | apps/shared/mixins/translation_mixins.py:97-109 | a key is looked for exactly when it is F_xx of a translatable media field or a shared media field F |
| TranslationWrite.ExtractSplits | apps/shared/mixins/translation_mixins.py:90-111 | the remaining data is the validated data minus the media keys; each extracted entry is a present media key with its original value; extracted keys are distinct; every present media key is extracted |
| TranslationWrite.ExtractPartitions | apps/shared/mixins/translation_mixins.py:90-111 | every validated key lands in exactly one of the extracted entries and the remaining data, with its value unchanged |
| TranslationWrite.WriteSerializer.ExtractMediaData | apps/shared/mixins/translation_mixins.py:90-111 | the popping loop returns the extraction the specification defines |
| TranslationWrite.DetectLanguageOfKey | apps/shared/mixins/translation_mixins.py:128-136 | the key F_xx of configured language j is tagged with language j's code as configured, and its base name is F |
| TranslationWrite.DetectNoLanguage | apps/shared/mixins/translation_mixins.py:128-136 | no language is detected exactly when no configured suffix ends the key, and the base name is then the key |
| TranslationWrite.WriteSerializer.DetectLanguageOf | apps/shared/mixins/translation_mixins.py:128-136 | the loop with `break` computes the first suffix match |
| TranslationWrite.UploadRowsShape | apps/shared/mixins/translation_mixins.py:151-163 | the rows are saved in order with consecutive ids, each public with the entry's kind and language and an upload taken from the list; every truthy upload gets a row |
| TranslationWrite.NewRowsShape | apps/shared/mixins/translation_mixins.py:117-163 | saving the media data appends only public rows of the owner and user, with consecutive ids; empty media data adds nothing |
| TranslationWrite.TranslatedEntryRows | apps/shared/mixins/translation_mixins.py:124-163 | the files under F_xx become rows of F's kind tagged with that language; a falsy value adds nothing |
| TranslationWrite.SharedEntryRows | apps/shared/mixins/translation_mixins.py:124-163 | the files under a shared key become rows with no language |
| TranslationWrite.WriteSerializer.SaveMediaFiles | apps/shared/mixins/translation_mixins.py:113-163 | existing rows are kept and exactly the specified new rows are appended |
| TranslationWrite.WriteSerializer.SaveEntry | apps/shared/mixins/translation_mixins.py:124-163 | one media entry appends its specified rows |
| TranslationWrite.WriteSerializer.SaveUploads | apps/shared/mixins/translation_mixins.py:151-163 | the file loop appends one row per truthy file |
| TranslationWrite.WriteSerializer.Create | apps/shared/mixins/translation_mixins.py:76-82 | the instance is built from the data without media keys, and the media rows are saved afterwards |
| TranslationWrite.WriteSerializer.Update | apps/shared/mixins/translation_mixins.py:84-88 | the non-media data overwrites the instance's attributes, and the media rows are saved afterwards |
| TranslationRead.DbLanguageFound | apps/shared/mixins/translation_mixins.py:232-233 | a stored code is found for the read language exactly when some configured code lowers to it, and it is such a code |
| TranslationRead.DbLanguageOfCode | apps/shared/mixins/translation_mixins.py:232-233 | with well-formed codes, the lower-cased code maps back to the configured code |
| TranslationRead.ReadKindIsKindOf | apps/shared/mixins/translation_mixins.py:214-228 | the read side classifies a field as the write side does |
| TranslationRead.Query | apps/shared/mixins/translation_mixins.py:230-237 | a row is returned exactly when it is the owner's, of the kind, and has the stored language, or is null when none is asked for |
| TranslationRead.AsItem | apps/shared/mixins/translation_mixins.py:240-258 | an item's id parses back to the row id; its url is null exactly when the row has no truthy file, and is the file's url otherwise; filename, size, type and language are the row's |
| TranslationRead.GetMediaShape | apps/shared/mixins/translation_mixins.py:213-260 | a list field gives, in order, the item of every matching row, each of the field's kind; a singular field gives None exactly when nothing matches, and otherwise the item of the first match |
| TranslationRead.RepresentShapes | apps/shared/mixins/translation_mixins.py:172-202 | a text field with an attribute F_uz takes its value, or `''` if the value is falsy, and without the attribute keeps its value; translatable media are looked up in `uz`; no F_xx key remains; shared media are looked up with no language; every other key is unchanged |
| TranslationRead.ToRepresentation | apps/shared/mixins/translation_mixins.py:172-202 | the assignment and pop loops compute the specified representation |
| TranslationRead.ReadField | apps/shared/mixins/translation_mixins.py:182-195 | handling one translatable field sets its reading and pops every language key |
| TranslationRead.SavedTranslatedRowsRead | apps/shared/mixins/translation_mixins.py:230-234 | rows saved under F_xx are found by the `uz` read exactly when xx lowers to `uz`, and every truthy file was saved |
| TranslationRead.SavedSharedRowsRead | apps/shared/mixins/translation_mixins.py:235-237 | rows saved under a shared key are found by the no-language read and never by a language read |
| TranslationRead.CreateThenReadText | apps/shared/mixins/translation_mixins.py:186-191 | after a create, a text field reads back the `uz` value that was written, or `''` if that value is falsy |
| ExceptionHandler.FirstCode | apps/shared/exceptions/handler.py:127-134 | a code is found exactly when the exception is an instance of some mapped class |
| ExceptionHandler.FirstCodeIsFirst | apps/shared/exceptions/handler.py:127-134 | the code found is the one of the first mapping entry that matches |
| ExceptionHandler.KnownCodes | apps/shared/exceptions/handler.py:58-69 | NotAuthenticated and AuthenticationFailed map to AUTHENTICATION_FAILED; Http404 and NotFound map to NOT_FOUND; the entry order decides |
| ExceptionHandler.MappedTypesSkipped | apps/shared/exceptions/handler.py:43-55 | every mapped class is in the skip tuple |
| ExceptionHandler.UnknownIffNotSkipped | apps/shared/exceptions/handler.py:173-183 | an exception reaches the unknown path exactly when the alert would not be skipped |
| ExceptionHandler.Dispatch | apps/shared/exceptions/handler.py:71-94 | a custom exception answers its own key and context; a mapped exception answers its code, with its text; anything else answers UNKNOWN_ERROR |
| ExceptionHandler.CustomIgnoresContext | apps/shared/exceptions/handler.py:97-112 | a custom exception's response does not depend on the handler context |
| ExceptionHandler.EscapeChars | apps/shared/exceptions/handler.py:269-277 | the output has no raw `< > " '` and is never shorter than the input (what becomes of `&` is fixed by ExceptionHandler.EscapeRoundTrip) |
| ExceptionHandler.EscapeHtml | apps/shared/exceptions/handler.py:254-277 | empty text gives `N/A`; otherwise the output holds no raw special character |
| ExceptionHandler.EscapeRoundTrip | apps/shared/exceptions/handler.py:269-277 | decoding the five entities restores the input, so every other character is kept in order |
| ExceptionHandler.SafeTraceback | apps/shared/exceptions/handler.py:198-203 | an empty traceback or `NoneType: None` becomes `No traceback available`; otherwise the result is the traceback's last min(n, 2000) characters |
| ExceptionHandler.ExtractErrorDetails | apps/shared/exceptions/handler.py:205-226 | the traceback is the safe one; with no request, the ip, port, path and method are all `unknown`; the client ip is never empty, and a truthy ip is kept |
| ExceptionHandler.AlertEmbedsDetails | apps/shared/exceptions/handler.py:228-252 | the alert starts with its header and embeds the escaped message, the escaped traceback and `ip:port` in code tags |
| ExceptionHandler.AlertLog.Record | apps/shared/exceptions/handler.py:151-164 | a sent alert is appended, and a failed one only counts a logged failure |
| ExceptionHandler.HandleUnknownException | apps/shared/exceptions/handler.py:139-171 | the response is UNKNOWN_ERROR whether or not the alert fails; a successful alert carries the formatted details |
| ExceptionHandler.HandleException | apps/shared/exceptions/handler.py:71-94 | the response is the dispatch result; only unknown exceptions touch the alert log |
| ProductSignals.RealPriceRule | apps/products/signals.py:9-14 | it succeeds exactly when discount > 0, with price·(100 − discount)/100; every other discount gives the "cannot be negative" error |
| ProductSignals.DiscountedBounds | apps/products/signals.py:10 | for a discount from 0 to 100, a non-negative price is reduced to a value between 0 and the price |
| ProductSignals.OverHundredUnreachable | apps/products/signals.py:11-12 | the "greater than 100%" error is never produced |
| ProductSignals.DefaultDiscountRefused | apps/products/signals.py:13-14 | the default discount 0 raises "Discount cannot be negative" |
| ProductSignals.OverHundredAccepted | apps/products/signals.py:9-12 | a discount above 100 on a positive price is accepted and stores a negative real price |
| ProductSignals.OverHundredExample | apps/products/signals.py:9-12 | price 10 with discount 150 stores −5 |
| ProductSignals.CorrectedRealPriceRule | apps/products/signals.py:9-14 | corrected: it succeeds exactly for 0 to 100, where 0 keeps the price and the result stays between 0 and the price; above 100 gives the 100% error; below 0 gives the negative error |
| ProductSignals.CorrectedAgrees | apps/products/signals.py:9-10 | for discounts 1 to 100 the corrected rule and the rule as written agree |
| ProductSignals.Product.constructor | apps/products/models.py:27-38 | a new product has discount 0 and is active |
| ProductSignals.UpdateRealPriceField | apps/products/signals.py:7-14 | on success only `real_price` changes; on the error nothing changes |
| Cart.NewCart | apps/cart/models.py:9 | a cart created without a name is named "My Meal List" |
| Cart.NewItem | apps/cart/models.py:19 | an item created without a quantity holds 1 |
| Cart.DefaultItemPrice | apps/cart/models.py:27-29 | a default item's estimated price is the product price |
| Cart.EstimatedPriceAdditive | apps/cart/models.py:27-29 | the line price is additive in the quantity |
| Cart.EstimatedPriceMonotone | apps/cart/models.py:27-29 | with a non-negative price, the line price is non-negative and grows with the quantity |
| Cart.CartStrParts | apps/cart/models.py:13-14 | the display string starts with `Cart of <username>` and ends with ` - <name>` |
| Cart.CartItemStrQuantity | apps/cart/models.py:23-24 | the display string starts with the title and ` (x`, and the quantity parses back from between `(x` and `)` |
| Cart.RemainingItems | apps/cart/models.py:17 | the items left after a cart is deleted are exactly those of other carts |
| Cart.DeleteCartCascades | apps/cart/models.py:17 | deleting a cart removes its items, keeps all others, and leaves no orphan item |
| Cart.ItemSurfaceKeys | apps/cart/serializers/cart_create.py:8-16 | an item is output as id, product, quantity, notes and estimated_price, and is input through quantity, notes and product_id |
| Cart.CartSurfaceKeys | apps/cart/serializers/cart_create.py:31-36 | a cart is output with id, user, name, created_at and items, and only user and name are input |
| Cart.ValidateQuantity | apps/cart/serializers/cart_create.py:19-22 | a value ≤ 0 is rejected with "Quantity must be greater than zero!", and a positive value passes unchanged |
| Cart.CheckQuantity | apps/cart/serializers/cart_create.py:19-22 | the field minimum comes first, then the method: rejected exactly when ≤ 0, with 0 given the method's message |
| Cart.QuantityExamples | apps/cart/tests/test_cart.py:95-105 | 0 and −3 are rejected |
| Cart.CreateKwargs | apps/cart/serializers/cart_create.py:25-27 | `product` takes `product_id`'s value, `product_id` is gone, and every other validated field passes through unchanged |
| Cart.Create | apps/cart/serializers/cart_create.py:25-27 | `product_id` is popped from the caller's data and exactly one row is inserted |
| Users.NewUser | apps/users/models/user.py:34-39 | the identifiers are as given, every status flag defaults to false and every name part is null (so its full name is "None None", see Users.FullNameOfNoNames) |
| Users.UserStr | apps/users/models/user.py:69-75 | it gives the username if truthy, else the phone number if truthy, else the email |
| Users.UserStrIsIdentifier | apps/users/models/user.py:69-75 | the display string is one of the three identifiers |
| Users.ConstraintAllowsNoDisplay | apps/users/models/user.py:55-62 | an empty username satisfies the constraint, yet `__str__` then returns None |
| Users.FullNameOfNoNames | apps/users/models/user.py:64-67 | as written, a user without names has the full name "None None" |
| Users.FullNameOfTwoParts | apps/users/models/user.py:64-67 | two names with no outer whitespace are joined by one space |
| Users.CorrectedFullName | apps/users/models/user.py:64-67 | corrected: no names gives "" |
| Users.CorrectedFullNameFirstOnly | apps/users/models/user.py:64-67 | corrected: a first name alone is the full name |
| Users.CorrectedFullNameAgrees | apps/users/models/user.py:64-67 | corrected and as written agree when both parts are present |
| Users.FirstMatch | apps/users/utils/custom_backend.py:16-20 | it is the first user whose email or username equals the identifier ignoring case, or whose phone number equals it exactly; none is found only when no user matches |
| Users.LookupCases | apps/users/utils/custom_backend.py:17-19 | the email matches ignoring case; the phone number does not |
| Users.AuthenticateReturnsFirstMatch | apps/users/utils/custom_backend.py:16-26 | the first match is returned exactly when its password check and `is_active` pass, and otherwise the result is None |
| Users.NoMatchCrashes | apps/users/utils/custom_backend.py:20-25 | with no matching user, the call fails instead of returning None |
| Users.UnknownIdentifierCrashes | apps/users/utils/custom_backend.py:20-25 | an empty user table makes the login fail with an error |
| Users.CorrectedAuthenticate | apps/users/utils/custom_backend.py:13-26 | corrected: it never fails; a returned user is an active match whose password passed; no match gives None |
| Users.CorrectedAuthenticateAgrees | apps/users/utils/custom_backend.py:13-26 | corrected and as written agree whenever some user matches |
| MobilePermission.WithToken | apps/shared/permissions/mobile.py:13 | it returns exactly the devices with the token |
| MobilePermission.GetDevice | apps/shared/permissions/mobile.py:12-15 | a found device has the token; DoesNotExist exactly when no device has it; MultipleObjectsReturned exactly when two different devices have it |
| MobilePermission.WithTokenSeveral | apps/shared/permissions/mobile.py:13 | two or more devices are returned exactly when two different positions of the table carry the token |
| MobilePermission.DuplicateTokenRefused | apps/shared/permissions/mobile.py:12-15 | two devices sharing a token give MultipleObjectsReturned, and the request is refused |
| MobilePermission.MultipleMessage | apps/shared/permissions/mobile.py:13 | the `get()` error names the number of matches below 21, and "more than 20" from 21 on |
| MobilePermission.GetDeviceUnique | apps/shared/permissions/mobile.py:13 | with unique tokens, a registered token finds its device |
| MobilePermission.Denial | apps/shared/permissions/mobile.py:7-15 | a missing or empty token gives TOKEN_IS_NOT_PROVIDED; an unknown one gives INVALID_TOKEN; there is no denial exactly when a device is found, so never when two devices share the token |
| MobilePermission.HasPermission | apps/shared/permissions/mobile.py:6-20 | a denial raises and leaves the request alone; otherwise the device is attached and the answer is true; it never answers false |
| MobilePermission.DenialResponse | apps/shared/permissions/mobile.py:9-15 | the handler answers a refused request with the permission's own message key |
| ProductViews.ListCreateSerializerClass | apps/products/views/product_list_create.py:24-36 | POST picks the create serializer; otherwise a missing device type counts as WEB, which lists, and any other type gets detail |
| ProductViews.DetailSerializerClass | apps/products/views/product_detail.py:20-26 | PUT and PATCH pick create, GET picks detail, and anything else picks list |
| ProductViews.ActiveProducts | apps/products/views/product_list_create.py:21-22 | exactly the active products are listed |
| ProductViews.SaveRow | apps/products/signals.py:7-14 | a save succeeds exactly when the receiver accepts, storing its real price; otherwise the ValueError escapes |
| ProductViews.Create | apps/products/views/product_list_create.py:38-52 | invalid data gives VALIDATION_ERROR and saves nothing; valid data with a positive discount is appended as the row of the payload's title, price, discount and is_active under the next id with its discounted real price, and answered with 201 and that row; a discount of 0 or less lets the receiver's ValueError escape and saves nothing |
| ProductViews.CreateKeepsUniqueIds | apps/products/views/product_list_create.py:38-52 | with the next id above every id in the table, a create keeps ids unique and below the following id |
| ProductViews.CreateWithoutDiscountFails | apps/products/views/product_list_create.py:40-41 | a valid create with discount 0 saves nothing, and the handler answers UNKNOWN_ERROR |
| ProductViews.FindActive | apps/products/views/product_detail.py:17-18 | the lookup finds a product exactly when an active one has the pk |
| ProductViews.InactiveNotFound | apps/products/views/product_detail.py:17-18 | an inactive product is not found, and the handler answers NOT_FOUND |
| ProductViews.Retrieve | apps/products/views/product_detail.py:28-35 | it answers 200 with an active product of that pk, or raises Http404 |
| ProductViews.ApplyPatch | apps/products/views/product_detail.py:39 | a partial update overwrites the given fields and keeps the others |
| ProductViews.Update | apps/products/views/product_detail.py:37-51 | a missing product gives 404; invalid data gives VALIDATION_ERROR with 400 and nothing saved; a valid patch whose patched discount is positive is saved as the patched row with its discounted real price, replacing only that product, and answered UPDATED_SUCCESSFULLY with 200; a patched discount of 0 or less lets the receiver's ValueError escape and saves nothing |
| ProductViews.UpdateChangesOneProduct | apps/products/views/product_detail.py:37-46 | a successful update changes only the product asked for: its patched fields and its recomputed real price |
| ProductViews.UpdateKeepsUniqueIds | apps/products/views/product_detail.py:37-51 | an update keeps the table's length and every id, so ids stay unique |
| ProductViews.EmptyPatchKeepsFields | apps/products/views/product_detail.py:39-41 | an empty partial update keeps every field and only recomputes the real price |
| ProductViews.Destroy | apps/products/views/product_detail.py:53-60 | the active product is removed and every other row is kept, answered with 204; a missing one raises Http404 |

## Findings

| source | as written | input that shows it | evidently intended | confidence | as-written member | corrected member |
|---|---|---|---|---|---|---|
| apps/products/signals.py:9-14 | a discount of 0 falls into the "Discount cannot be negative" branch, so a product cannot be saved with the model default `discount=0` (apps/products/models.py:27) | price 10, discount 0 | discount 0 keeps `real_price == price` | high (not executed) | ProductSignals.DefaultDiscountRefused | ProductSignals.CorrectedRealPriceRule |
| apps/products/signals.py:9-12 | `discount > 100` is tested after `discount > 0`, so the branch is unreachable, and a discount above 100 stores a negative price | price 10, discount 150 stores −5 | raise "Discount cannot be greater than 100%" | high (not executed) | ProductSignals.OverHundredExample | ProductSignals.CorrectedRealPriceRule |
| apps/users/utils/custom_backend.py:20-25 | `.first()` returns None when nothing matches; `user.check_password` then raises AttributeError, which the `DoesNotExist` handler does not catch | an empty user table, identifier "nobody" | return None, as for a wrong password | high (not executed) | Users.UnknownIdentifierCrashes | Users.CorrectedAuthenticate |
| apps/users/models/user.py:67 | a null name part is rendered as the text "None" | first_name and last_name both null give "None None" | a null part contributes nothing, so the result is "" | medium (not executed) | Users.FullNameOfNoNames | Users.CorrectedFullName |

The product views model what the running code does, so they use the
price rule as written: `ProductViews.CreateWithoutDiscountFails` shows the
first finding at the API.

## Left out

- Strings.Lower is ASCII-only. Python's `str.lower()` and the database's case-insensitive comparison (`__iexact`) also fold non-ASCII letters.
- ProductSignals.RealPriceRule uses exact reals. It does not model Decimal context rounding, or the quantization of `real_price` to 2 decimal places when it is saved.
- The `print` loop over `self.fields` in `create` (translation_mixins.py:78-79) is output only. It is not modelled.
- Left out of the ORM:
  - `ContentType`;
  - the Media model's own fields (the Media model is not part of this model);
  - file storage.

  An owner is a (content type, object id) pair. `file.url` is the `urlOf` parameter, and `file_size` is the upload's size.
- The Media model's `Meta` ordering is not part of this model. Queries return rows in table order.
- The Telegram thread, the logger and `get_client_ip` are not modelled. An alert is a string appended to a log, a failure to send is an input, and the client IP is a request field.
- `CustomResponse` is not part of this model. A response is its message key, its context and the exception text.
- The `CustomException` constructor (`context or {}`) is not modelled. A custom exception carries its context as given.
- Users.WithinBounds states the column lengths as a predicate. Nothing in the modelled code checks them on save.
- Token issuance is left out: `User.get_tokens` and device token generation use JWT, wall-clock time and randomness.
- MobilePermission.Request.Token reads the header under the exact key `Token`. Django's case-insensitive header mapping is not modelled.
- Cart.CheckQuantity models only the lower bound of the positive integer column. The database-dependent upper bound is not modelled.
- The product views import `IsMobileOrWebUser`, which apps/shared/permissions/mobile.py does not define. The views' permission class is not part of this model.
- Both product views import `ProductDetailSerializer` from apps/products/serializers/product_list_create.py, which defines only `ProductCreateSerializer` and `ProductListSerializer`; as written those imports fail, like the `IsMobileOrWebUser` one. The model takes the views as if the imports resolved.
- ProductViews.ProductRow keeps only the product fields the views and the `pre_save` receiver act on (id, title, price, discount, real_price, is_active); `description`, `category`, `measurement_type`, the media relation and the timestamps are carried through unchanged by the views and are not modelled. ProductSignals.Product models the same table as an object for the receiver alone; the views use the receiver's rule through ProductViews.SaveRow.
- Pagination of the list endpoint is not part of this model, nor are the serializers' output forms: a response carries the product row itself.
- Cart.Create stands the resolved `Product` instance in for its primary key value.
