# Inventory management: a verified model of its core

This project models, in Dafny, the parts of the inventory-management web application
that make decisions:

- **The product routes of the backend** (`backend/routes/products.js`). Every request comes
  from an already authenticated user. `List` and `GetOne` are queries over the stored
  products. `ProductStore` is a class holding the product collection, and its `Create`,
  `Update` and `Delete` methods change that collection. The ownership rules are these:
  - a missing product is 404;
  - someone else's product is 404 on read, and 403 on update or delete (after the 404 check);
  - an update replaces only the fields it supplies non-empty.
- **The product list page** (`ProductList.js`): the case-insensitive search, the exact
  category filter, the de-duplicated category list and the owner test.
- **The profile page** (`Profile.js`):
  - the avatar initials and colour bucket;
  - the defaults filled into a loaded profile;
  - the dotted-name input handler. `Forms.Change` models it, and the registration form
    shares it.
- **The registration form** (`auth/Register.js`): its empty starting state and the prefill
  from a Google sign-in that found no account.
- **The Google sign-in button** (`auth/GoogleLoginButton.js`): the library guard, and the
  classification of the backend's answer into sign-in, nothing, registration hand-off or
  error report.
- **The backend's error middleware** (`backend/server.js`): which error name gives which
  status and body.

Modules:
- `Text` holds the JavaScript string operations used: `trim`, `split(/\s+/)`, `split('.')`,
  `includes` and ASCII case mapping. Its white-space set is JavaScript's.
- `Json` holds JavaScript values, truthiness and object spread.
- The other modules follow the source files.

Where the source throws (calling `toUpperCase` on `[0]` of an empty word, which is
`undefined`; reading `.token` of a `null` reply), the model gives the value the surrounding
`catch` turns it into.

The database, the clock and the upload are parameters:
- a failure of `find`, `save` or the deletion is an optional message that the route's `catch`
  answers with;
- new ids and creation times are inputs, and a new id must be fresh;
- the uploaded file is an optional path.

Three behaviours of the product routes are easy to miss:
- getting someone else's product answers 404, not 403;
- update and delete check existence before ownership;
- the product routes send the database's own error message with their 400 and 500 answers.

## Model

| member | source | states |
|---|---|---|
| Text.Contains | inventory-management/frontend/src/components/ProductList.js:120-121 | `includes` never finds a term longer than the text, and always finds the empty term; its exact meaning is ContainsIff |
| Text.ContainsIff | inventory-management/frontend/src/components/ProductList.js:120-121 | `includes` holds exactly when the term occurs at some position of the text |
| Text.Lower | inventory-management/frontend/src/components/ProductList.js:120-121 | `toLowerCase` keeps the length, leaves no ASCII capital, turns each capital into its small letter and leaves every other character as it was |
| Text.Upper | inventory-management/frontend/src/components/Profile.js:40-49 | `toUpperCase` keeps the length, leaves no ASCII small letter, turns each small letter into its capital and leaves every other character as it was |
| Text.LowerOfUpper | inventory-management/frontend/src/components/ProductList.js:120-121 | lower-casing after upper-casing is plain lower-casing, so capitals in a search term do not matter |
| Text.Trim | inventory-management/frontend/src/components/Profile.js:32 | the trimmed name neither starts nor ends with white space, and it is empty exactly when the name is all white space |
| Text.TrimCutsPadding | inventory-management/frontend/src/components/Profile.js:32 | a name is a run of white space, then its trimmed form, then another run of white space; with Trim's own contract this pins the trimmed name down as the name with its leading and trailing white space cut off |
| Text.TrimPadding | inventory-management/frontend/src/components/Profile.js:32 | white space added around a name does not change its trim |
| Text.SplitWs | inventory-management/frontend/src/components/Profile.js:32 | `split(/\s+/)` always yields at least one piece; what the pieces are is stated by the SplitWs lemmas below |
| Text.SplitWsPiecesHaveNoSpace | inventory-management/frontend/src/components/Profile.js:32 | no word produced by the split on white-space runs contains white space |
| Text.SplitWsPiecesNonEmpty | inventory-management/frontend/src/components/Profile.js:32 | a string that ends in a non-space gives no empty word except a first one caused by leading space, so repeated spaces create no extra words |
| Text.SplitWsConcat | inventory-management/frontend/src/components/Profile.js:32 | a run of white space of any length separates the words on its two sides |
| Text.SplitWsLastWord | inventory-management/frontend/src/components/Profile.js:32 | a name ending in white space and a word has that word as its last word |
| Text.SplitOn | inventory-management/frontend/src/components/Profile.js:118 | `split('.')` yields at least one piece; a name without a dot is its own only piece, and a name with a dot gives at least two |
| Text.SplitOnJoin | inventory-management/frontend/src/components/Profile.js:118 | joining the pieces of `split('.')` with "." gives back the name |
| Text.SplitOnPiecesNoSep | inventory-management/frontend/src/components/auth/Register.js:44 | no piece of `split('.')` contains a dot |
| Text.SplitOnHead | inventory-management/frontend/src/components/auth/Register.js:44 | `split('.')` yields the part before the first dot, then the pieces of the rest |
| Json.FalsyValues | inventory-management/frontend/src/components/Profile.js:83-99 | the values that fail an `if (x)` test or fall through an `x \|\| y` are exactly `null`, `false`, `0` and `''`; every object is truthy |
| Json.Spread | inventory-management/frontend/src/components/Profile.js:122 | spreading `undefined`, `null`, a boolean or a number copies no property |
| Json.SpreadOwnProperties | inventory-management/frontend/src/components/Profile.js:85 | spreading an object copies exactly its properties, and spreading a string gives one property per character under its index key |
| Json.SpreadString | inventory-management/frontend/src/components/auth/Register.js:48 | a spread string has one property per character: the key is the index written in decimal and the value the one-character string |
| Json.Or | inventory-management/frontend/src/components/Profile.js:86-96 | a field-or-fallback read gives the stored value when it is present and truthy, and the fallback when it is missing or falsy; the result is truthy whenever the fallback is |
| Forms.DottedPath | inventory-management/frontend/src/components/auth/Register.js:44 | "parent.child" is destructured into exactly that parent and child |
| Forms.Change | inventory-management/frontend/src/components/Profile.js:115-132 | an input changes exactly one top-level field, the part of its name before the first dot, and leaves every other field as it was; an undotted name gets the value itself, a dotted one gets an object holding the value under the second segment |
| Forms.ChangeNested | inventory-management/frontend/src/components/Profile.js:115-125 | a dotted input sets the child under its parent, rebuilt from the old parent's spread, and every other top-level field is unchanged |
| Forms.ChangeNestedKeepsSiblings | inventory-management/frontend/src/components/auth/Register.js:43-51 | when the parent holds an object, the other children keep their values and no child is lost |
| Forms.ChangeTopLevel | inventory-management/frontend/src/components/auth/Register.js:52-56 | an undotted input sets that top-level field and no other |
| Forms.ChangeIgnoresDeeperSegments | inventory-management/frontend/src/components/auth/Register.js:44 | "a.b.c" acts as "a.b": only the first two segments are used |
| Products.Find | inventory-management/backend/routes/products.js:88-89 | `findById` gives the first position holding the id, or reports that no product has it |
| Products.ListQuery | inventory-management/backend/routes/products.js:26-32 | the query matches exactly the requester's products when `showMyProducts` is the string "true", and every product otherwise |
| Products.Select | inventory-management/backend/routes/products.js:26-34 | the query keeps exactly the stored products that match it (all, or the requester's own), each as many times as it is stored |
| Products.SelectAll | inventory-management/backend/routes/products.js:26 | the empty query keeps every product in stored order |
| Products.Insert | inventory-management/backend/routes/products.js:36 | placing a product in a newest-first list keeps it newest first and adds exactly that product |
| Products.SortNewestFirst | inventory-management/backend/routes/products.js:34-36 | the sorted list is a permutation of its input, ordered by `createdAt` descending |
| Products.List | inventory-management/backend/routes/products.js:21-44 | a database fault answers 500 with its message; otherwise 200 with a newest-first list |
| Products.ListMine | inventory-management/backend/routes/products.js:27-28 | with `showMyProducts` exactly "true" the list holds all of the requester's products, each as many times as it is stored, and no one else's |
| Products.ListEverything | inventory-management/backend/routes/products.js:26-34 | any other value, or none, lists every stored product exactly once |
| Products.GetOne | inventory-management/backend/routes/products.js:47-57 | a fault answers 500; success returns a stored product with that id owned by the requester; any other failure is 404 "Product not found" |
| Products.GetOneOwned | inventory-management/backend/routes/products.js:49-53 | the requester's own product is returned by its id |
| Products.GetOneOthers | inventory-management/backend/routes/products.js:49-52 | another user's product answers 404, as a missing one does, never 403 |
| Products.NewProduct | inventory-management/backend/routes/products.js:66-74 | a new product takes the form fields, the uploaded path or "", and the requester as owner |
| Products.CreatedIsPrivate | inventory-management/backend/routes/products.js:66-79 | after a create, the creator reads the product back and every other user gets 404 |
| Products.AppendKeepsUnique | inventory-management/backend/routes/products.js:77 | saving a product under a fresh id keeps ids unique |
| Products.OrKeep | inventory-management/backend/routes/products.js:99 | a non-empty field replaces the stored value and an empty one keeps it |
| Products.Merge | inventory-management/backend/routes/products.js:99-106 | the update replaces each of the five fields only when supplied non-empty, and the image only when a file came; id, owner and creation time never change |
| Products.MergeIdempotent | inventory-management/backend/routes/products.js:99-106 | sending the same update twice stores the same product as sending it once |
| Products.MergeEmpty | inventory-management/backend/routes/products.js:99-106 | an update with no fields and no file stores the product unchanged |
| Products.ReplaceKeepsUnique | inventory-management/backend/routes/products.js:108 | saving the updated product under its own id keeps ids unique |
| Products.RemoveAt | inventory-management/backend/routes/products.js:128 | deleting one position leaves one product fewer, exactly that one removed |
| Products.RemoveAtExactly | inventory-management/backend/routes/products.js:128-129 | the deletion removes exactly the product with that id, every other product stays, and ids stay unique |
| Products.ProductStore.Create | inventory-management/backend/routes/products.js:60-84 | a save fault answers 400 and stores nothing; otherwise 201 with the new product, appended to the collection |
| Products.ProductStore.Update | inventory-management/backend/routes/products.js:87-113 | a find fault answers 400, a missing product 404, another owner's 403, a save fault 400, each leaving the store unchanged; otherwise 200 with the merged product stored in place |
| Products.ProductStore.Delete | inventory-management/backend/routes/products.js:116-134 | a find fault answers 500, a missing product 404, another owner's 403, a deletion fault 500, each leaving the store unchanged; otherwise "Product deleted" and the product is removed |
| ProductList.Keep | inventory-management/frontend/src/components/ProductList.js:120-123 | a product passes the filter exactly when the lower-cased term occurs at some position of its lower-cased name or description, and no category is chosen or its category is the chosen one |
| ProductList.Filter | inventory-management/frontend/src/components/ProductList.js:119-124 | a product is kept exactly when its lower-cased name or description contains the lower-cased term and the category filter is empty or equal to its category; a kept entry appears as many times as in the input |
| ProductList.FilterSubsequence | inventory-management/frontend/src/components/ProductList.js:119-124 | filtering keeps the relative order of the products it keeps |
| ProductList.FilterIdempotent | inventory-management/frontend/src/components/ProductList.js:119-124 | filtering twice gives what filtering once does |
| ProductList.FilterNoCriteria | inventory-management/frontend/src/components/ProductList.js:120-122 | an empty search term with no category keeps every product |
| ProductList.SearchIgnoresCase | inventory-management/frontend/src/components/ProductList.js:120-121 | a search term in capitals keeps the same products |
| ProductList.SearchIgnoresItemCase | inventory-management/frontend/src/components/ProductList.js:120-121 | a name or description in capitals matches the same terms |
| ProductList.CategoryIsExact | inventory-management/frontend/src/components/ProductList.js:122 | a chosen category that differs from the product's, even only in case, drops it |
| ProductList.Distinct | inventory-management/frontend/src/components/ProductList.js:126 | the de-duplicated list holds every value of the input and no value twice |
| ProductList.DistinctKeepsFirstOrder | inventory-management/frontend/src/components/ProductList.js:126 | the values come in the order of their first appearance |
| ProductList.CategoryOf | inventory-management/frontend/src/components/ProductList.js:126 | the mapped list has one entry per product, the product's category, in the products' order |
| ProductList.Categories | inventory-management/frontend/src/components/ProductList.js:126 | the categories offered are exactly the products' categories, each once |
| ProductList.IsProductOwner | inventory-management/frontend/src/components/ProductList.js:47-50 | while "my products" is on every product counts as owned; otherwise a product is owned exactly when a user is signed in and the owner's id is that user's |
| ProductList.OwnerShortcutAgrees | inventory-management/frontend/src/components/ProductList.js:47-50 | while "my products" is on, the owner shortcut agrees with the id comparison for every product the backend lists |
| ProductList.OwnerNeedsBothIds | inventory-management/frontend/src/components/ProductList.js:49 | without the shortcut, a missing current user or product owner means not the owner |
| Profile.Words | inventory-management/frontend/src/components/Profile.js:32 | splitting the trimmed name gives at least one word |
| Profile.InitialsOf | inventory-management/frontend/src/components/Profile.js:36-50 | initials exist exactly when the first and the last word are non-empty; they start with the first word's first character upper-cased; a lone word gives its first two characters upper-cased, or its only one; several words add the last word's first character upper-cased |
| Profile.Initials | inventory-management/frontend/src/components/Profile.js:30-50 | initials, where they exist, are one or two characters under the ASCII case mapping of this model (JavaScript's full mapping can lengthen them: `'ß'.toUpperCase()` is "SS") |
| Profile.WordsNonEmpty | inventory-management/frontend/src/components/Profile.js:32 | a name that is not blank splits into non-empty words only |
| Profile.InitialsDefined | inventory-management/frontend/src/components/Profile.js:32-50 | initials exist exactly when the name is not empty or all white space; otherwise `getAvatarUrl` throws |
| Profile.InitialsOneWord | inventory-management/frontend/src/components/Profile.js:36-44 | a one-word name gives its first two characters upper-cased, or its only character upper-cased |
| Profile.InitialsTwoWords | inventory-management/frontend/src/components/Profile.js:45-50 | two words, such as "John Doe", separated by any non-empty run of white space give the upper-cased first letter of each |
| Profile.InitialsSeveralWords | inventory-management/frontend/src/components/Profile.js:45-50 | three or more words give the upper-cased first letters of the first and last words; the words between them and the runs of white space do not matter |
| Profile.InitialsIgnorePadding | inventory-management/frontend/src/components/Profile.js:32 | white space around the name changes no initial |
| Profile.TabKeepsInitials | inventory-management/frontend/src/components/Profile.js:32 | "Ann" followed by a tab has the initials of "Ann", the counterpart of TabChangesColour: the same tab that changes the colour leaves the initials alone |
| Profile.CodeSum | inventory-management/frontend/src/components/Profile.js:64 | the character-code sum of the empty name is 0 |
| Profile.CodeSumAppend | inventory-management/frontend/src/components/Profile.js:64 | the code sum of a concatenation is the sum of the parts' code sums |
| Profile.ColourIndex | inventory-management/frontend/src/components/Profile.js:54-65 | the colour bucket is always one of the eight colours |
| Profile.ColourIgnoresOrder | inventory-management/frontend/src/components/Profile.js:64 | swapping two parts of the name keeps its colour |
| Profile.ColourIgnoresSpaceCharacter | inventory-management/frontend/src/components/Profile.js:64 | a space, whose code 32 is a multiple of 8, appended to the name keeps its colour |
| Profile.TabChangesColour | inventory-management/frontend/src/components/Profile.js:54-65 | the colour uses the untrimmed name: "Ann" is bucket 5 and "Ann" plus a tab is bucket 6 |
| Profile.AvatarUrl | inventory-management/frontend/src/components/Profile.js:30-68 | an avatar URL exists exactly when initials do, and is non-empty |
| Profile.InitialUser | inventory-management/frontend/src/components/Profile.js:7-23 | the starting profile has its six fields, all empty, with the five address fields and the two company fields |
| Profile.FetchProfile | inventory-management/frontend/src/components/Profile.js:83-108 | a falsy body changes nothing; a successful load always has a truthy address, company and profile image; the only failure is "Failed to load profile" |
| Profile.WithDefaults | inventory-management/frontend/src/components/Profile.js:84-97 | the loaded record has the body's keys plus address and company; every other field is kept, a truthy address or company is kept, and a falsy or missing one becomes the empty one |
| Profile.FetchProfileKeeps | inventory-management/frontend/src/components/Profile.js:84-85 | every field of the body is kept, except that a falsy address, company or profile image is replaced |
| Profile.FetchProfileDefaults | inventory-management/frontend/src/components/Profile.js:86-96 | a falsy or missing address or company becomes the empty one |
| Profile.FetchProfileAvatar | inventory-management/frontend/src/components/Profile.js:98-101 | without a profile image, a non-blank name gets its generated avatar |
| Profile.FetchProfileBlankName | inventory-management/frontend/src/components/Profile.js:98-108 | without a profile image, a missing, non-string or blank name makes the load fail |
| Register.InitialForm | inventory-management/frontend/src/components/auth/Register.js:12-28 | the starting form has its six fields, all empty, with the five address fields and the two company fields |
| Register.InitialPage | inventory-management/frontend/src/components/auth/Register.js:10-28 | the page starts with the empty form and an empty, falsy error line, so no error is shown |
| Register.Prefill | inventory-management/frontend/src/components/auth/Register.js:30-39 | without a truthy email in the navigation state nothing changes; with one, the email is taken and only email and name change |
| Register.PrefillNameAndError | inventory-management/frontend/src/components/auth/Register.js:33-37 | the name becomes the state's name or "", and the error line the state's message or "" |
| Register.PrefillKeepsTheRestEmpty | inventory-management/frontend/src/components/auth/Register.js:32-36 | prefilling the starting form leaves password, phone, address and company empty |
| GoogleLogin.Initialise | inventory-management/frontend/src/components/auth/GoogleLoginButton.js:28-84 | the button is drawn exactly when the Google library is loaded (the guard at lines 31-33); otherwise the error is reported to `onError` by the `catch` at lines 81-84 |
| GoogleLogin.Request | inventory-management/frontend/src/components/auth/GoogleLoginButton.js:41-43 | the credential is sent unchanged as the only field, `tokenId` |
| GoogleLogin.Callback | inventory-management/frontend/src/components/auth/GoogleLoginButton.js:38-66 | signing in happens only on a reply, with a truthy token, passing the reply data on |
| GoogleLogin.SignInIff | inventory-management/frontend/src/components/auth/GoogleLoginButton.js:45-49 | the token is stored exactly when the reply carries a truthy one |
| GoogleLogin.NoTokenIdle | inventory-management/frontend/src/components/auth/GoogleLoginButton.js:45 | a non-null reply without a token stores nothing, calls nothing and navigates nowhere |
| GoogleLogin.RegistrationIff | inventory-management/frontend/src/components/auth/GoogleLoginButton.js:51-60 | the registration hand-off happens exactly on a 401 whose body has a truthy email, carrying that email, the name and the fixed message |
| GoogleLogin.OtherFailuresReported | inventory-management/frontend/src/components/auth/GoogleLoginButton.js:61-64 | every other failure is reported to `onError` with the error itself |
| GoogleLogin.HandOffPrefillsRegister | inventory-management/frontend/src/components/auth/GoogleLoginButton.js:53-60 | the registration form shows the Google email, the name or "", and the message asking to complete registration |
| ErrorHandler.Handle | inventory-management/backend/server.js:36-48 | every error gets exactly one of 400 and 500; a validation error keeps its message; a cast error says "Invalid ID format"; anything else says "Something went wrong!"; the raw message is attached only to a 500 in development |
| ErrorHandler.NoDetailOutsideDevelopment | inventory-management/backend/server.js:44-47 | outside development, no error other than a validation error reaches the client with its own message |

## Left out

- Authentication: the auth middleware and the `/api/auth` routes are not part of this model. With them go token issue and verification, password hashing and Google ID-token checks. The requester id is a trusted input.
- `populate('user', 'name _id')`: the list page receives the owner's id, or None for a deleted owner.
- Storage, the network, navigation, `localStorage`, loading flags and rendering are not modelled. They appear only as returned actions and states.
- Multer and the `Date.now()` file name: the uploaded file is an optional opaque path.
- Mongoose validation and casting: their failures are the optional fault messages. The product schema is not part of this model.
- Products.ProductStore: each route runs as one indivisible step. The source awaits between `findById` and `save` (products.js lines 88 and 108) and between `findById` and `findByIdAndDelete` (lines 118 and 128), so other requests can run in between, and those interleavings are not captured. For example, two deletes of the same product by its owner can both pass the existence and owner checks; the second `findByIdAndDelete` then matches nothing without failing, so both answer "Product deleted", where the model answers the second with 404.
- Products.SortNewestFirst: the order among products with equal `createdAt` is whatever insertion gives. The database does not promise a tie order.
- Products.ProductStore.Create: requires a fresh id, because the database generates ids.
- Numbers: price and quantity are the strings a multipart form delivers. `Json.Value` numbers are integers, with no floating point.
- Arrays in JSON bodies are not modelled.
- Case mapping covers ASCII letters only.
- Dafny characters are Unicode scalar values, while JavaScript strings are UTF-16 code units. The members below count scalar values, so they differ from JavaScript for characters outside the Basic Multilingual Plane.
- Profile.CodeSum: adds scalar values, where JavaScript adds the code units of each surrogate pair.
- Profile.Initials: the `length >= 2` test, `substring(0, 2)` and `[0]` take scalar values, where JavaScript takes code units. For the name "😀 Bob", JavaScript takes a lone high surrogate as the first initial, `encodeURIComponent` then throws a URIError, and the load fails with "Failed to load profile". The model gives the initials "😀B" and succeeds.
- Json.SpreadString: the index keys count scalar values, where JavaScript's string spread keys code units.
- Profile.AvatarUrl: does not apply `encodeURIComponent` to the initials. That function percent-encodes every character except ASCII letters, digits and `-_.!~*'()`, such as "&", "#", "+" or "É". For such initials the model's URL differs from the page's: the one-word name "&Co" gives the initials "&C", the page requests `name=%26C`, and the model's URL holds `name=&C`, which even splits the query.
- `formatDate`, the submit handlers of the profile and registration pages, `AddProduct.js` and `EditProduct.js` are not modelled. They are form plumbing and locale formatting.
- Profile.FetchProfile: only the reply body is modelled. A failed request, whose message comes from the error response, is left out.
- GoogleLogin.Callback: does not model `localStorage.setItem` or `onSuccess` throwing inside the `try`.
- GoogleLogin.Callback: a reply body is a JSON value, so an `undefined` body cannot be given. Reading `.token` of it throws just as for `null`, and it would be reported the same way.
