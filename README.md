# Custom validation rules of the gin-validator guide

The custom validator guide (`_examples/custom-validator-guide/main.go`) plugs
three kinds of custom logic into the go-playground/validator library:

- two field-level rules backed by fixed, anchored regular expressions:
  `username_format` (`^[a-zA-Z0-9_]+$`) and `phone_format` (`^1[3-9]\d{9}$`);
- a custom type function, `ValidateValuer`, that unwraps any `driver.Valuer`
  (such as `sql.NullString`) into the value its `Value()` method yields;
- a struct-level rule, `UserStructValidation`, that reports both name fields
  when a `User` has neither a first nor a last name.

This project models those pieces and proves what each promises.

- `Formats` (`formats.dfy`) gives each pattern as a matcher that follows the
  pattern's structure. A `+` is one class character followed by a star, and
  `\d{9}` is a counted repetition. Each matcher's contract states the set of
  texts the pattern denotes. Lemmas cover the empty text, non-ASCII runes,
  anchoring at both ends, closure of the username language under
  concatenation and splitting, and the guide's demonstration inputs.
- `Utf8` (`utf8.dfy`) relates a Go string's bytes to the runes Go's
  `regexp` matches. Accepted texts are ASCII, so the byte-level reading of
  each pattern gives the same verdict as the rune-level one. The same
  encoding gives Go's byte-counting `len` for the name test.
- `Valuer` (`valuer.dfy`) models `ValidateValuer`. Its input is the field's
  dynamic kind together with the `(val, err)` pair `Value()` returns.
- `UserValidation` (`user_validation.dfy`) holds the `User` record, the
  library's `StructLevel` handle as a class with a mutable error list, and
  `UserStructValidation` as a method that appends to that list. The
  function `NameErrors` is its specification.
- `Wrappers` (`wrappers.dfy`) holds the `Option` type that stands for Go's
  `nil`-or-value.

Strings are `seq<char>`, the Unicode scalar values Go's regexp decodes from
the string. RE2's `\d` is ASCII `[0-9]`. Without the `m` flag, `^` and `$`
anchor to the whole text.

## Model

The contracts below are stated with four helper predicates of `Formats`.
`IsWordChar` is the class `[a-zA-Z0-9_]` of main.go:15 and `IsDigit` is the
`\d` of main.go:16. `UsernameFormatBytes` and `PhoneFormatBytes` are the two
patterns read byte by byte; they serve only as the reference side of the
byte/rune agreement lemmas.

| member | source | states |
|---|---|---|
| `Formats.MatchWordStar` | _examples/custom-validator-guide/main.go:15 | `[a-zA-Z0-9_]*$` matches a text iff every rune of it is an ASCII letter, digit or underscore |
| `Formats.UsernameFormat` | _examples/custom-validator-guide/main.go:150-153 | `username_format` accepts a text iff it is non-empty and every rune is in `[A-Za-z0-9_]` |
| `Formats.MatchDigits` | _examples/custom-validator-guide/main.go:16 | `\d{n}$` matches a text iff it has exactly `n` runes, all ASCII digits |
| `Formats.PhoneFormat` | _examples/custom-validator-guide/main.go:157-160 | `phone_format` accepts a text iff it has exactly 11 runes, the first `'1'`, the second in `'3'..'9'`, the other nine ASCII digits |
| `Formats.UsernameRejectsEmpty` | _examples/custom-validator-guide/main.go:15 | because of `+`, the empty text is rejected |
| `Formats.UsernameRejectsNonAscii` | _examples/custom-validator-guide/main.go:150-153 | any text with a rune at or above U+0080, at any position, is rejected |
| `Formats.UsernameAcceptsExamples` | _examples/custom-validator-guide/main.go:64-105 | the demonstration usernames `"zhang_san"` and `"test_user"` are accepted |
| `Formats.UsernameRejectsExample` | _examples/custom-validator-guide/main.go:82-83 | the demonstration username `"张三"` is rejected |
| `Formats.UsernameConcat` | _examples/custom-validator-guide/main.go:15 | the concatenation of two accepted usernames is accepted |
| `Formats.UsernameSplit` | _examples/custom-validator-guide/main.go:15 | every non-empty prefix and suffix of an accepted username is accepted |
| `Formats.PhoneAcceptsExample` | _examples/custom-validator-guide/main.go:69 | the demonstration number `"13800138000"` is accepted |
| `Formats.PhoneRejectsExample` | _examples/custom-validator-guide/main.go:118 | the demonstration number `"12345"` is rejected |
| `Formats.PhoneAnchored` | _examples/custom-validator-guide/main.go:16 | an accepted number with one more rune before or after it (a trailing newline included) is rejected |
| `Formats.PhoneRejectsNonAscii` | _examples/custom-validator-guide/main.go:157-160 | any text with a rune at or above U+0080 is rejected |
| `Formats.UsernameBytesAgree` | _examples/custom-validator-guide/main.go:151-152 | matching the username pattern on a string's runes and on its UTF-8 bytes give the same verdict, for every string |
| `Formats.PhoneBytesAgree` | _examples/custom-validator-guide/main.go:158-159 | the same agreement for the phone pattern |
| `Formats.UsernameBytesExample` | _examples/custom-validator-guide/main.go:83 | `"张三"` is the six bytes E5 BC A0 E4 B8 89, which the byte-level pattern also rejects |
| `Utf8.EncodeRune` | _examples/custom-validator-guide/main.go:151 | a rune is one byte equal to itself when below U+0080, otherwise two to four bytes all with the high bit set |
| `Utf8.Encode` | _examples/custom-validator-guide/main.go:178 | a string's byte length is between its rune count and four times it, and is zero iff the string has no runes |
| `Utf8.EncodeAscii` | _examples/custom-validator-guide/main.go:152 | a string is ASCII iff its bytes are, and then its bytes are its runes one for one |
| `Valuer.ValidateValuer` | _examples/custom-validator-guide/main.go:163-171 | a value is returned iff the field is a `driver.Valuer` whose `Value()` returned no error and a non-nil value, and it is that value; nil in every other case |
| `Valuer.ValidateValuerCases` | _examples/custom-validator-guide/main.go:164-170 | on success `Value()`'s result passes through, a nil value included; on error or for a non-valuer the result is nil whatever value came with the error |
| `UserValidation.NameErrors` | _examples/custom-validator-guide/main.go:178-181 | no error iff at least one name is non-empty; otherwise exactly two, in order: (`""`, `first_name`, `FirstName`, `require_name`, `""`) then (`""`, `last_name`, `LastName`, `require_name`, `""`) |
| `UserValidation.NameErrorsReadOnlyNames` | _examples/custom-validator-guide/main.go:175-180 | two users with the same first and last names get the same errors, whatever their other fields |
| `UserValidation.NameErrorsExamples` | _examples/custom-validator-guide/main.go:64-105 | the first demonstration user gets no name error; the third (both names empty) gets exactly the `first_name` report followed by the `last_name` report, both with tag `require_name` |
| `UserValidation.StructLevel.ReportError` | _examples/custom-validator-guide/main.go:179-180 | each report appends one error, with the arguments given, to the end of the error list |
| `UserValidation.UserStructValidation` | _examples/custom-validator-guide/main.go:174-182 | the error list afterwards is the list before followed by `NameErrors` of the current user |

## Left out

- `main` (main.go:42-146): the demonstration driver. It creates the global validator, registers the rules, prints results, and has no logic of its own. The names and phone numbers of its users appear only as inputs to the example lemmas.
- The go-playground/validator library is not part of this model. That covers tag parsing, the built-in rules (`required`, `min`, `max`, `gte`, `lte`, `email`, `omitempty`), rule order and short-circuiting, registration, and the reflection behind `FieldLevel` and `StructLevel`. `StructLevel` is reduced to the struct it exposes and the error list that `ReportError` appends to.
- Go's general `regexp` engine: only the two fixed patterns are modelled, as matchers for exactly those patterns.
- Invalid UTF-8: strings are modelled as sequences of Unicode scalar values. Go decodes an invalid byte as U+FFFD, which neither pattern accepts; this decoding is not modelled.
- How `sql.NullString.Value()` maps `Valid` to nil or a string belongs to `database/sql`. The `(val, err)` result of `Value()` is an input to `ValidateValuer`. The `reflect.Value` to `interface{}` step and the `driver.Valuer` type assertion become the `Field` datatype's two cases.
- The `UserStatus` constants (main.go:20-26) and the struct tags of `User` (main.go:29-38) are declarations whose meaning lives in the library. `status` is a plain `int`.
