# Users application: handler logic

A model of the user-collection logic inside the route handlers of a small
Slim (PHP) users application, `public/index.php`. The users are kept in a
JSON file (`public/db/users`). Each request that uses the file reads it whole,
and the create handler writes it whole.
The model covers three handlers:

- `GET /users` lists the users. A truthy `username` query parameter narrows
  the list to the users whose nickname contains the term. The match ignores
  ASCII case and keeps the stored order. The term is echoed into the
  view-model.
- `POST /users/new` stores a submitted user. An empty `user` field map
  re-renders the form and touches nothing. Otherwise the new record gets
  id = largest existing id + 1 (1 on an empty store). The id is merged last,
  so it overrides any submitted `id`. The record is appended and the whole
  list is saved. The response redirects (302) to the list.
- `GET /users/{id}` answers 404 when no stored user has the id. Otherwise its
  view-model is the route argument and the nickname `"user-"` followed by it.

Files:

- `wrappers.dfy` holds `Option`, used for PHP's nullable values.
- `php_strings.dfy` holds the PHP string built-ins the handlers use:
  - `strtolower` as ASCII case folding
  - `str_contains`, proved equal to "occurs at some position"
  - the decimal form of an integer, proved injective
- `php_arrays.dfy` holds the PHP array built-ins the handlers use:
  - `array_filter`, proved to be an order-preserving subsequence that keeps
    exactly the matching elements, each with its original multiplicity
  - `rsort`, as an insertion sort proved to give a descending permutation
- `users_app.dfy` holds the handlers:
  - the `User` record and the `Response` a handler produces
  - the `UserFile` class that stands for the JSON file
  - the create handler `StoreUser`, a method over the file
  - the list and detail handlers `ListUsers` and `ShowUser`, functions of the
    loaded list

The list and detail handlers call `getUsers()` first; in the model, that
loaded list is their `users` parameter.

`public/index.php` has no validation, no edit, update or delete handlers,
no login gating and no flash messages. Its create route is `POST /users/new`,
and it stores any non-empty field map.

## Model

| member | source | states |
|---|---|---|
| `UsersApp.UserFile.Load` | public/index.php:72-77 | `getUsers()` yields the list `Users()` describes: the decoded list, or the empty list when the file is empty or does not decode (`?? []`) |
| `UsersApp.UserFile.Save` | public/index.php:79-84 | `saveUsers()` overwrites the whole file with the list; loading afterwards yields exactly that list |
| `UsersApp.Truthy` | public/index.php:21 | the `username` value is truthy only when present and non-empty. Every value of two or more characters is truthy. A one-character value is truthy exactly when it is not "0" |
| `UsersApp.NicknameMatches` | public/index.php:22 | the search callback keeps a user exactly when the lower-cased term occurs at some position of the lower-cased nickname |
| `UsersApp.ListUsers` | public/index.php:17-28 | the view-model always echoes the term. A falsy term (absent, `""`, `"0"`) gives the full list unchanged. A truthy term gives an order-preserving subsequence of the users: a user is in it if and only if it is stored and its lower-cased nickname contains the lower-cased term |
| `UsersApp.ListUsersMultiplicity` | public/index.php:22 | each matching user appears in the filtered list as often as it is stored; a non-matching user does not appear |
| `UsersApp.ListUsersIgnoresCase` | public/index.php:22 | searching for a term and for its lower-cased form gives the same list, and both terms are truthy |
| `UsersApp.ListUsersExample` | public/index.php:21-22 | among "Alice" and "bob", the term "ali" finds only "Alice" |
| `PhpStrings.StrContains` | public/index.php:22 | `str_contains`: the empty needle is always contained. A needle longer than the haystack never is. A string contains itself, and it contains its own tail after the first character. The full characterisation ("occurs at some position") is `StrContainsIff` |
| `PhpStrings.StrContainsIff` | public/index.php:22 | `str_contains` holds exactly when the needle occurs at some position of the haystack |
| `PhpStrings.LowerChar` | public/index.php:22 | `strtolower` on one character: the result is never an upper-case ASCII letter, and only 'A'..'Z' change, each to its lower-case letter |
| `PhpStrings.StrToLower` | public/index.php:22 | `strtolower` keeps the length and folds each character on its own |
| `PhpStrings.StrToLowerIdempotent` | public/index.php:22 | folding twice equals folding once; a folded string holds no upper-case letter |
| `PhpArrays.ArrayFilter` | public/index.php:22 | `array_filter` keeps only elements of the input that satisfy the callback, and keeps every element that does |
| `PhpArrays.ArrayFilterIsSubsequence` | public/index.php:22 | `array_filter` keeps the order of what it keeps (the result is a subsequence of the input) |
| `PhpArrays.ArrayFilterCount` | public/index.php:22 | `array_filter` keeps every kept element with its full multiplicity and drops all others |
| `PhpArrays.ArrayFilterCongruent` | public/index.php:22 | two callbacks that agree on the elements give the same filtered list |
| `PhpArrays.RSort` | public/index.php:48 | `rsort` yields a descending permutation of its input |
| `PhpArrays.RSortHeadIsMaximum` | public/index.php:48-50 | after `rsort`, the first element is an element of the input and no smaller than any other |
| `UsersApp.NextId` | public/index.php:47-52 | the next id is 1 on an empty store. Otherwise it is exactly the largest stored id plus one, so it is greater than every stored id |
| `UsersApp.IdColumn` | public/index.php:47 | `array_column($users, 'id')` lists the ids in stored order |
| `UsersApp.AssignId` | public/index.php:47-52 | collecting the ids, sorting them descending, taking the first (0 when there is none) and incrementing yields `NextId` |
| `UsersApp.MergeId` | public/index.php:52 | the merged record's id is the assigned one, whatever `id` the form held |
| `UsersApp.StoreUser` | public/index.php:38-57 | an empty form re-renders the form and leaves the file unchanged. Otherwise the file becomes the old list plus one record at the end, with the next id. Every earlier record keeps its position and contents. The new id exceeds every old id, unique ids stay unique, and the response is a 302 redirect to the list |
| `UsersApp.NextIdKeepsIdsUnique` | public/index.php:52 | appending a record that carries the next id to a list with unique ids keeps the ids unique |
| `UsersApp.NextIdExample` | public/index.php:47-52 | stored ids 3, 5 and 2 give the new user id 6 |
| `UsersApp.ShowUser` | public/index.php:59-70 | the answer is 404 if and only if no stored user's id matches the route argument; otherwise the view-model is the argument and `"user-"` followed by it |
| `UsersApp.IdMatches` | public/index.php:61 | the lookup callback matches only a route argument that reads back as the user's id: all digits with value `id` for a non-negative id, and '-' followed by the digits of `-id` for a negative one |
| `UsersApp.ShowUserById` | public/index.php:61-67 | for a route argument that is the decimal form of an integer id, the answer is 404 exactly when no stored user has that id. Otherwise the nickname is `"user-"` followed by the id |
| `PhpStrings.IntToString` | public/index.php:61 | an integer's string form starts with a digit when it is non-negative, and with '-' followed by more characters when it is negative |
| `PhpStrings.DigitsRoundTrip` | public/index.php:61 | reading back the decimal digits of a natural number gives the number |
| `PhpStrings.IntToStringInjective` | public/index.php:61 | distinct integers have distinct decimal strings, so matching on the string form is matching on the id |

## Left out

- Slim application setup, the container, the renderer, route registration, the error middleware and `$app->run()` are left out. They are framework wiring. A rendered template is modelled only by its view-model, and a redirect only by its status and route name.
- The `GET /users/new` handler (lines 32-36) is left out. It only renders the empty form and holds no logic.
- File access (`realpath`, `file_get_contents`, `file_put_contents`) is I/O. It is replaced by the `content` field of `UserFile`.
- JSON encoding and decoding are library code. `UserFile` holds the decoded list directly, which assumes that saving and reloading returns the same list. Two cases are not modelled. A file that decodes to something other than a list (`{}`, `5`, `true`) makes `getUsers(): array` throw a TypeError. Such content can only come from editing the file by hand.
- `StoreUser` assumes every submitted value is valid UTF-8, because a Dafny `string` cannot hold anything else. A value such as `user[nickname]=%FF` makes `json_encode` at line 83 return `false`. `file_put_contents` then truncates the file to the empty string, and the next `getUsers()` returns `[]`. Every stored user is lost, and the next create reuses id 1. The model's promise that earlier records keep their position and contents does not cover this input.
- `ListUsers` takes the `username` query value as a string or absent. A value given as an array (`?username[]=a`) is truthy in PHP. When at least one user is stored, `strtolower` then throws a TypeError at line 22, so the request fails instead of listing. On an empty store the callback never runs, and the page lists `[]` with the array echoed. The model has no such input and no error response for it.
- `ListUsers` matches on characters, while PHP's `strtolower` and `str_contains` at line 22 work on bytes. The two agree when the term and the nickname are valid UTF-8. Stored nicknames always are, because `json_encode` refuses anything else. A query term that is not valid UTF-8 (`?username=%A9`) is truthy in PHP. It matches every nickname whose encoding contains that byte, such as `"é"` (bytes C3 A9) or `"©"`. A `string` term cannot hold such a value, so the model does not express this case.
- `ListUsers` assumes every stored nickname is a string. A record saved with an array-valued nickname (from `user[nickname][]=a`) makes every truthy search throw a TypeError at line 22. The model has no such record.
- `StoreUser` takes the submitted fields as strings. An array-valued field such as `user[nickname][]=a` is merged and saved by PHP as a nested array. The model cannot represent it, and does not model the TypeError that later searches hit on such a record.
- `NextId` uses unbounded integers. PHP's `++` at PHP_INT_MAX (9223372036854775807) yields a float. Under PHP's loose `==`, that float equals the old largest id, and further creates round back to the same value, so ids repeat. This int-to-float promotion is not modelled.
- `StoreUser` promises a fresh id and that unique ids stay unique for every stored list. PHP keeps these promises only while the largest id is below PHP_INT_MAX, for the reason given in the `NextId` line above.
- `MergeId` keeps only the `nickname` and `email` fields of the submitted form. The source writes every submitted field to the file. A field that was not submitted reads as the empty string in the model, as PHP's `null` does in `strtolower`.
- `IdMatches` and `ShowUser` compare the route argument with the canonical decimal form of each id. PHP's loose `==` also matches numeric strings in other forms (`"07"`, `" 7"`, `"7.0"`). Those route arguments answer 404 in the model but show the user in PHP.
- `User.id` is always an integer in the model. A stored record without an `id`, or with a non-integer one, is not modelled. `array_column` would skip it, and the loose comparison would coerce it.
- `ArrayFilter` keeps order but not PHP's original array keys. The filtered list in the view-model therefore has no gaps in its keys.
- `StrToLower` folds only ASCII 'A'..'Z'. Locale-dependent and multibyte case folding are not modelled.
- `RSort` returns a new sorted sequence. PHP's `rsort` sorts the local `$ids` array in place. Nothing else refers to that array, so no aliasing is lost.
- A `user` body parameter that is not an array (for example, a plain string) is not modelled.
- Concurrent requests can lose each other's writes (last write wins). This is left out because the model is sequential.
