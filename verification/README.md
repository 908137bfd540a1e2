# ezr: `result` and `one_of` in Dafny

This project models the two generic value types of the `ezr` header library:

- `ezr::result<T, E>` (include/result.hpp) is a tri-state outcome. It keeps both a
  `T data` and an `E error` field next to a state byte `is_valid` (0 = error,
  1 = success with warning, 2 = success). It is built by the static factories
  `ok`, `warn` and `err` and by the converting constructors from the wrappers
  `ezr::ok<T>` and `ezr::err<E>`. Its queries and accessors branch on the state
  byte. A wrong-state access hits `EZR_ASSERT`, which becomes a `requires` clause
  here.
- `ezr::one_of<iden, params...>` (include/one_of.hpp) is a positional tagged union.
  It has an integral or enumeration discriminant `idx` and a storage slot. Its
  compile-time helpers are `largest_of`, `type_index` and `for_`. At run time,
  `validate<T>(id)` decides whether a value of type `T` may be written under
  discriminant `id`.

Files:

- `result.dfy`, module `EzrResult`: `result<T, E>` is a datatype `Result<T, E>`
  whose members are the header's members. The factories start from the private
  blank `result()` and set one field after another, as the header does. They do
  this with a chain of datatype updates, which has the same effect because the
  local object is fresh. Default initialisation leaves the payload fields at
  values the program does not choose, so those values enter as a `Defaults<T, E>`
  argument.
- `type_lists.dfy`, module `TypeLists`: C++ types are `TypeTag`s (an identity and
  a `sizeof`), and a parameter pack is a `seq<TypeTag>`. The module holds
  `largest_of`, `type_index` and `for_`, plus the 64-bit `size_t` conversion.
- `one_of.dfy`, module `EzrOneOf`: `one_of` is a class with the fields `idx` and
  `storage`. The storage holds the value last written together with the type it
  was written as. `validate` is an imperative method: a loop driven by the `for_`
  call order fills the `indices` array, and a second loop scans it and stops at
  the first hit.

These behaviours of the code are kept as written and proved:

- `err()` asserts `!is_valid`, so it is refused on a Warn result. The diagnostic
  of a Warn result therefore cannot be observed at all.
- `transform` rewraps the mapped value with `ok`, which drops a warning.
- `type_index<T, off, params...>` is `off` when `T` occurs in `params[off..]` and
  -1 otherwise. It is not the position of `T`. As a result, `validate` accepts
  any discriminant at or before a later position that holds `T`.
- `validate` converts both the discriminant and each `int` entry to `size_t` before
  comparing them. An entry of -1 becomes `SIZE_MAX`, so the discriminant -1 is
  accepted whenever the last type of the list is not `T`, even when `T` is not
  in the list at all.

Contrary to what the names suggest, `err()` is refused on a Warn result,
`transform` drops the warning, and `validate` accepts more than the exact
position of the type. The model follows the code in each case. The branch of
`transform` for a `void` callable is modelled as its text reads. Under
"## Left out", the line on `EzrResult.Result.TransformVoid` explains why that
branch cannot be instantiated.

## Model

| member | source | states |
|---|---|---|
| `EzrResult.QueriesByState` | include/result.hpp:112-127 | for every state byte, `is_ok()`, `operator bool` and `!is_err()` agree and `has_warning()` implies `is_ok()`; what states 0, 1 and 2 answer |
| `EzrResult.Result.IsErr` | include/result.hpp:120-123 | `is_err()` holds exactly when the result stands for a failure |
| `EzrResult.Result.IsOk` | include/result.hpp:112-115 | `is_ok()` is the negation of `is_err()` |
| `EzrResult.Result.AsBool` | include/result.hpp:124-127 | `operator bool` answers the same as `is_ok()` |
| `EzrResult.Result.HasWarning` | include/result.hpp:116-119 | a warning implies `is_ok()` and not `is_err()` |
| `EzrResult.Result.ToOptional` | include/result.hpp:272-276 | the optional is present exactly when the result is not an error |
| `EzrResult.Result.Value` | include/result.hpp:52-74 | `value()` / `operator*` may only be called on Ok or Warn, and they return what `to_optional()` wraps |
| `EzrResult.Result.Error` | include/result.hpp:81-85 | `err()` may only be called when `is_err()` holds, so a Warn result is refused; the result then stands for a failure carrying exactly the returned error |
| `EzrResult.Result.ValueOr` | include/result.hpp:99-102 | never asserts; returns `value()` on Ok/Warn and the default on Err |
| `EzrResult.ValueOrViaOptional` | include/result.hpp:95-106 | `value_or(d)` equals the present optional value or else `d` |
| `EzrResult.Result.Handle` | include/result.hpp:140-147 | the result is `valid_fn(value())` on Ok/Warn and `invalid_fn(err())` on Err |
| `EzrResult.HandleCallsOne` | include/result.hpp:140-147 | Ok and Warn take the value path and Err takes the error path; the other function has no influence on the answer |
| `EzrResult.Result.Transform` | include/result.hpp:182-203 | on Ok/Warn the answer is a plain success (state 2, no warning) holding `f(value())`; on Err it is an error carrying the same error |
| `EzrResult.TransformDropsWarning` | include/result.hpp:194-197 | transforming `warn(x, e)` equals transforming `ok(x)` and equals `ok(f(x))` |
| `EzrResult.TransformSkipsOnError` | include/result.hpp:199-201 | transforming `err(e)` gives `err(e)` whatever the callable, so the callable is not applied |
| `EzrResult.TransformLaws` | include/result.hpp:182-203 | mapping the identity over `ok(x)` gives it back; two transforms equal one transform by the composition |
| `EzrResult.Result.TransformVoid` | include/result.hpp:189-193 | with a `void` callable the answer is always an error: the default error on Ok/Warn and the original error on Err |
| `EzrResult.Result.Blank` | include/result.hpp:40 | the private default result reads as an error carrying the default error value |
| `EzrResult.Result.Ok` | include/result.hpp:229-236 | `ok(x)`: `is_ok()` and `operator bool` are true, `has_warning()` and `is_err()` are false, `value() == x`; the result stands for a success carrying `x` |
| `EzrResult.Result.Warn` | include/result.hpp:237-245 | `warn(x, e)`: `is_ok()` and `has_warning()` are true, `is_err()` is false (so `err()` is refused), `value() == x`; the result stands for a warning carrying `x` and `e` |
| `EzrResult.WarnDiagnosticUnobservable` | include/result.hpp:76-90 | two Warn results that differ only in their diagnostic answer every query, accessor and combinator alike |
| `EzrResult.Result.Err` | include/result.hpp:246-253 | `err(e)`: `is_err()` is true, `is_ok()`, `operator bool` and `has_warning()` are false, `err() == e`; the result stands for a failure carrying `e` |
| `EzrResult.Result.FromOk` | include/result.hpp:260-264 | converting from `ezr::ok<T>` gives a warning-free success whose `value()` is the wrapped value |
| `EzrResult.Result.FromErr` | include/result.hpp:255-259 | converting from `ezr::err<E>` gives an error whose `err()` is the wrapped error |
| `EzrResult.WrappersMatchFactories` | include/result.hpp:15-32 | the converting constructors build exactly `ok(x)` and `err(e)` |
| `TypeLists.ToSizeT` | include/one_of.hpp:71 | conversion to `size_t` keeps in-range values and maps -1 to `SIZE_MAX` |
| `TypeLists.LargestOf` | include/one_of.hpp:13-24 | the answer is a member of the list, and its size is at least that of every type in the list |
| `TypeLists.LargestFold` | include/one_of.hpp:18-24 | one step of the fold keeps the larger of the head and the next type; the answer is the head or a type of the rest, at least as large as the head and every type of the rest |
| `TypeLists.LargestFoldFirstWins` | include/one_of.hpp:18-24 | on a tie the step keeps the head, so the answer is the first position whose type is not strictly smaller |
| `TypeLists.LargestOfFirstWins` | include/one_of.hpp:13-24 | on ties the earlier type wins: every type before the answer is strictly smaller |
| `TypeLists.TypeIndex` | include/one_of.hpp:34-37 | the answer is -1 or exactly `off`, and `off` only when it is a position of the list |
| `TypeLists.TypeIndexMeaning` | include/one_of.hpp:26-37 | `type_index<T, off, params...>` is `off` when `T` occurs in `params[off..]`, else -1 |
| `TypeLists.ForIndices` | include/one_of.hpp:42-53 | `for_<N>` calls its body once for each index `0..N-1`, in increasing order |
| `EzrOneOf.OneOf.Validate` | include/one_of.hpp:69-86 | `validate<T>(id)` is true exactly when the converted `id` is in range and `T` occurs at or after it, or `id` converts to `SIZE_MAX` and the last type is not `T` |
| `EzrOneOf.AcceptsIffSomeIndexMatches` | include/one_of.hpp:72-84 | some entry of the `indices` table matches the converted discriminant exactly when that closed form holds |
| `EzrOneOf.ValidateSound` | include/one_of.hpp:69-86 | the discriminant of a position holding `T` is accepted |
| `EzrOneOf.ValidateLoose` | include/one_of.hpp:69-86 | any discriminant before a later position holding `T` is accepted too |
| `EzrOneOf.ValidateRejectsForeign` | include/one_of.hpp:69-86 | a type in no position is rejected for every discriminant other than one converting to `SIZE_MAX` |
| `EzrOneOf.ValidateAcceptsMinusOne` | include/one_of.hpp:71-79 | the discriminant -1 is accepted whenever the last type is not `T` |
| `EzrOneOf.DemoConstructionRejected` | test.cpp:12 | constructing `Text` with `eText::U32` and a string literal fails the check; `(U32, 7u)` passes |
| `EzrOneOf.DeclaredStorageTooSmall` | include/one_of.hpp:65 | the storage as declared holds one byte, less than a `uint32_t` or a `std::string` |
| `EzrOneOf.StorageSize` | include/one_of.hpp:65 | the intended storage size, `sizeof(largest_of<params...>::type)`, fits every alternative and equals the size of one of them |
| `EzrOneOf.OneOf.constructor` | include/one_of.hpp:101-109 | requires `validate<T>(id)`; afterwards `idx == id` and the storage holds the value, which fits when `id` is in range |
| `EzrOneOf.OneOf.Assign` | include/one_of.hpp:87-94 | requires `validate<T>(id)`; overwrites `idx` and the storage in place and changes nothing else |
| `EzrOneOf.OneOf.Get` | include/one_of.hpp:111-117 | `get<i>()` requires `idx == i` and returns the stored payload; the union's invariant (the discriminant and the stored type passed `validate` together) only guarantees that the payload's type occurs at position `i` or later |
| `EzrOneOf.GetReadsOtherType` | include/one_of.hpp:101-117 | type confusion is reachable: a `std::string` written under the `uint32_t` discriminant is accepted, and `get<U32>()` returns a payload that is not a `uint32_t` |
| `EzrOneOf.ConstructThenGet` | include/one_of.hpp:101-117 | round trip: construct with `(k, v)` where `params[k]` is `v`'s type, then `get<k>()` gives `v` |
| `EzrOneOf.AssignThenGet` | include/one_of.hpp:87-117 | after `assign(k, v)` on any accepted union, `get<k>()` gives `v` |
| `EzrOneOf.TextScenario` | include/one_of.hpp:101-117 | the union `one_of<Tag, uint32_t, std::string>` built with `(U32, 7u)`: `get<U32>()` gives 7, and `get<String>()` is not permitted |

## Findings

| source | as written | input that shows it | evidently intended | confidence | as-written member | corrected member |
|---|---|---|---|---|---|---|
| include/one_of.hpp:65 | the storage member's type is the `largest_of` trait struct itself, not its `type` member; the struct has no data members, so the storage is one byte | `one_of<eText, uint32_t, std::string>`: the constructor places a 4-byte `uint32_t` or a `std::string` into one byte | storage of the largest alternative's type, so that every alternative fits | high (not executed) | `EzrOneOf.DeclaredStorageTooSmall` | `EzrOneOf.StorageSize` |

The class `EzrOneOf.OneOf` uses the corrected size as its `capacity`.

## Left out

- `EZR_ASSERT` (include/assert.hpp) is not a component. Each assertion is the `requires` clause of the member that hits it.
- Only the `&`-qualified overloads of `value`, `err`, `value_or`, `handle`, `transform` and `to_optional` are modelled. The `&&` and `const&` overloads of `transform` name `std::invoke_result` (the trait) rather than its result type. The `const&` overload of `handle` has a template parameter `R` that cannot be deduced.
- `EzrResult.Result.TransformVoid`: in C++, `result<void, E>` cannot be instantiated, because it has a `void` data member. The private `result()` of another specialisation is also inaccessible. So this branch is modelled as the text reads, with `()` as the payload type.
- The header has no diagnostic-text customisation point: `value()` fails with a fixed message. The failure message is not modelled.
- `operator=(std::pair<iden, T&&>)` is not modelled. It forwards the lvalue `value.second` to `assign`, so `T` is deduced as a reference type, and the cast to a pointer to it is ill-formed. This overload cannot be instantiated.
- The `static_assert`s are not modelled: `is_integral`/`is_enum` on `iden`, `is_assignable_to`, `is_constructible_with`, `is_invocable` and `is_same` on `handle`. Neither are the helpers `is_assignable_to`, `is_constructible_with` and `num<N>`.
- Raw memory is not modelled: placement `new`, pointer casts, alignment and byte-level reinterpretation. `one_of` has no destructor, and `assign` writes with `T`'s assignment operator over whatever object is in the storage. The model has no object lifetimes, so a balance of constructions and destructions is outside it.
- `EzrOneOf.OneOf.Get`: returns the stored payload with the type it was written as. It does not model reading those bytes as `params[i]` when `validate`'s looseness let a different type be written; `EzrOneOf.GetReadsOtherType` shows that such a read is reachable.
- The demonstration program's string literal deduces a reference type. In C++, placement `new` of a reference type does not compile. The model states only the run-time check's verdict.
- Type sizes are abstract naturals (the `Text` sizes are illustrative), `size_t` is 64 bits, and the width of the `int` loop counter and `indices` entries is not modelled.
- `EzrResult.Result.Value`, `EzrResult.Result.Error`, `EzrResult.Result.ValueOr`, `EzrResult.Result.Handle`, `EzrResult.Result.Transform`: the modelled `&` overloads return `T&`/`E&`, and they pass `data`/`error` to the callables by non-const reference. In the program, callers and callables can therefore change the result in place; for example, a callable that increments its argument changes `data`. In the model, the callables are pure functions, references are returned as values, and the receiver never changes.
- Move and copy semantics, `std::forward`/`std::move`, and the `__cplusplus` guard around `to_optional` are not modelled.
- `test.cpp` output through `std::cout` is not modelled.
