# UInt32Parameter: the SIP numeric parameter parser and encoder

This project models `resip/stack/UInt32Parameter.cxx` from the reSIProcate SIP
stack. A `UInt32Parameter` is a SIP parameter whose value is an unsigned
32-bit decimal, such as `;ttl=5` or `;expires=3600`. The role of the
`expires` parameter is set out in section 10.2.1.1 of RFC 3261.

- The parsing constructor starts just after the parameter name. It skips
  whitespace, one `=` and more whitespace. It then insists that input remains
  and reads an unsigned 32-bit decimal.
- For the `expires` parameter only, a value that is not a number is
  tolerated, so that an RFC 2543 style quoted date is accepted. The value
  becomes 3600 and the cursor moves to the next parameter terminator.
- The value constructor stores a type and a value, and `clone` copies the
  parameter.
- `encode` writes the parameter name, `=` and the value in decimal.

Files and modules:

- `decimal.dfy`, module `Decimal`: digit characters, the value of a run of
  digits, and `ToDecimal`, the decimal rendering of an unsigned value.
- `parse_buffer.dfy`, module `Rutil`: the parse buffer (`rutil/ParseBuffer`)
  that the constructor drives. The buffer's implementation is not part of
  this model. Each primitive the constructor calls is given an assumed
  behaviour, first as a pure function of the text and the cursor, then as a
  method of the `ParseBuffer` class proved against that function. The assumed
  constants are the whitespace set (space, tab, CR, LF) and `ParamTerm`, the
  parameter terminators `;` and `?`.
- `uint32_parameter.dfy`, module `Stack`: the parameter type, the
  `UInt32Parameter` class, `ParseValue`, and the lemmas.

`ParseValue(t, buf, pos)` is the parsing constructor written as a function.
It gives the value and the final cursor, or the parse error. The class method
`UInt32Parameter.Parse` follows the constructor step by step on a mutable
`ParseBuffer` and is proved to agree with `ParseValue`. The properties are
stated about `ParseValue` against predicates that describe the text directly
(`ValueStartsAt`, `NumberAt`, `FirstTerminator`, `NotAUInt32At`), not in
terms of the parser.

The library reports parse failures by throwing an exception. Here each
primitive returns a `Result` or an `Outcome` instead. A `ParseError` records
the kind of failure and the cursor position where it was raised, and the
cursor is left at that position.

The constructor takes a `terminators` argument but never uses it. The
`expires` fallback always skips to `ParamTerm`
(`resip/stack/UInt32Parameter.cxx:34`). `Parse` accepts the argument and
ignores it in the same way. With `ParamTerm` assumed to be `;` and `?`, the
modelled fallback stops only at `;`, `?` or the end of the text, so a comma
inside a quoted date does not cut the skip short. Whether in the library the
skip can also pass a `,` or `>` that ends the enclosing header value depends
on that assumed `ParamTerm` and on how far the buffer extends, neither of
which is part of this model.

## Model

| member | source | states |
|---|---|---|
| `Stack.UInt32Parameter.Parse` | resip/stack/UInt32Parameter.cxx:13-42 | On success, the new parameter object is fresh and has the requested type, and its value and the buffer's cursor are those `ParseValue` gives. On error, the same error is returned and the cursor is left where it was raised. |
| `Stack.ParseValue` | resip/stack/UInt32Parameter.cxx:13-42 | The parsing constructor as a function of the text and the starting cursor. Its own contract says only that the cursor never moves backwards and stays within the text, on success and at an error alike; the lemmas below characterise its result. |
| `Rutil.SkipCharAt` | resip/stack/UInt32Parameter.cxx:20 | Succeeds exactly on the expected character and moves one place past it. Otherwise it fails at the cursor: with an end-of-input error at the end of the text, with "expected" that character elsewhere. |
| `Rutil.NotEofAt` | resip/stack/UInt32Parameter.cxx:22 | Passes exactly when input remains, without moving the cursor. Otherwise it fails with an end-of-input error at the cursor. |
| `Stack.ParseOfNumber` | resip/stack/UInt32Parameter.cxx:19-41 | After optional whitespace, `=` and optional whitespace, a maximal run of digits whose value fits in 32 bits is the parsed value, for every type, `expires` included. The cursor ends just after the last digit. |
| `Stack.NonExpiresRejectsMalformed` | resip/stack/UInt32Parameter.cxx:38-41 | For a type other than `expires`, a value that does not start with a digit, or whose digits exceed 2^32-1, is an error at the start of the value (`ExpectedDigit` or `Overflow`). No default is substituted. The over-range half rests on the assumed `Overflow` failure of the buffer's number reader (see "## Left out"). |
| `Stack.ExpiresToleratesMalformed` | resip/stack/UInt32Parameter.cxx:25-36 | For `expires`, such a value is not an error. The result is exactly 3600, with the cursor on the first `;` or `?` at or after the value, or at the end of the text. The over-range half rests on the assumed `Overflow` failure of the buffer's number reader (see "## Left out"). |
| `Stack.ExpiresQuotedDate` | resip/stack/UInt32Parameter.cxx:24-36 | An `expires` value that is a quoted date followed by `;` parses to 3600, with the cursor on that `;`, even when the date contains commas. |
| `Stack.EndOfInputAfterEquals` | resip/stack/UInt32Parameter.cxx:22-27 | If the text ends after the `=` and its whitespace, parsing fails with an end-of-input error for every type, `expires` included. The end-of-input check comes before the fallback. |
| `Stack.MissingEquals` | resip/stack/UInt32Parameter.cxx:19-20 | If the first character after the optional whitespace is not `=`, parsing fails there with "expected `=`". If the text ends there instead, it fails with an end-of-input error. |
| `Stack.ParseSuccessShape` | resip/stack/UInt32Parameter.cxx:13-42 | The converse: every successful parse is either a well-formed number read as it is, or, for `expires` only, the 3600 fallback with the cursor on the first terminator. |
| `Stack.ParseErrorKinds` | resip/stack/UInt32Parameter.cxx:19-41 | Every error is a missing `=` or input ending too early. For types other than `expires` it may also be a value that is not a 32-bit number. An `expires` parse never fails because of its value. |
| `Stack.UInt32Parameter.constructor` | resip/stack/UInt32Parameter.cxx:44-47 | The value constructor stores exactly the given type and value. |
| `Stack.UInt32Parameter.Clone` | resip/stack/UInt32Parameter.cxx:49-53 | Returns a new object, distinct from every existing one, with the same type and value. |
| `Stack.UInt32Parameter.Encode` | resip/stack/UInt32Parameter.cxx:55-59 | The encoded text is the parameter's name, one `=`, then a non-empty run of digits whose value is the parameter's value, with no leading zero. Nothing else is emitted. |
| `Stack.EncodeRoundTrip` | resip/stack/UInt32Parameter.cxx:58 | For every parameter, parsing the encoded text from just after the name gives back its value and consumes the whole encoding. This holds whatever text follows, unless it starts with a digit. |
| `Decimal.ToDecimal` | resip/stack/UInt32Parameter.cxx:58 | The decimal rendering of a value is non-empty, all digits, has no leading zero (0 is rendered as `0`), and reads back as the value. |
| `Rutil.ParseBuffer.SkipWhitespace` | resip/stack/UInt32Parameter.cxx:19 | Moves the cursor over whitespace to the first non-whitespace character or the end (`SkipWhitespaceFrom`). |
| `Rutil.SkipWhitespaceFrom` | resip/stack/UInt32Parameter.cxx:21 | Where whitespace skipping stops: everything passed over is whitespace, and the stop is the end or a non-whitespace character. |
| `Rutil.ParseBuffer.SkipChar` | resip/stack/UInt32Parameter.cxx:20 | Consumes the character when it is the expected one. Otherwise it fails without moving: at the end of the text with an end-of-input error, on any other character with "expected". |
| `Rutil.ParseBuffer.AssertNotEof` | resip/stack/UInt32Parameter.cxx:22 | Passes exactly when input remains. Otherwise it fails with an end-of-input error at the cursor. It never moves the cursor. |
| `Rutil.ReadUInt32` | resip/stack/UInt32Parameter.cxx:40 | Succeeds exactly on a non-empty run of digits at the cursor whose value fits in 32 bits: the value is that of the maximal run, and the cursor ends after it. Otherwise it fails at the cursor, with "expected a digit" exactly when no digit is there. |
| `Rutil.ParseBuffer.UInt32` | resip/stack/UInt32Parameter.cxx:29 | Reads the digits in a loop and returns what `ReadUInt32` gives. On success the cursor ends after the digits; on failure it does not move. |
| `Rutil.ParseBuffer.SkipToOneOf` | resip/stack/UInt32Parameter.cxx:34 | Moves the cursor to the first of the given characters at or after it, or to the end (`SkipToOneOfFrom`). |
| `Rutil.SkipToOneOfFrom` | resip/stack/UInt32Parameter.cxx:34 | Where skipping to a set of characters stops: nothing passed over is in the set, and the stop is the end or a character in the set. |

## Left out

- `Rutil.ParseBuffer.UInt32`: a run of digits whose value does not fit in 32 bits is modelled as an `Overflow` failure, with the cursor left at the start of the run. `rutil/ParseBuffer` is not part of this model, so how the real buffer treats such a run, and where it leaves the cursor, is not claimed. Where the cursor is left after such a failure does not change what the constructor yields: the `expires` fallback skips to a terminator, digits are never terminators, and for other types the error propagates either way. Whether such a run fails at all does change it (an error or 3600 here), so the over-range cases of `Stack.NonExpiresRejectsMalformed` and `Stack.ExpiresToleratesMalformed` hold under this assumption only.
- `Rutil.ReadUInt32`: the same assumption. The loop accumulates an unbounded integer and checks it once, rather than modelling 32-bit wrap-around digit by digit.
- The whitespace set and the `ParamTerm` terminators are assumed constants of `rutil/ParseBuffer`, which is not part of this model.
- Exceptions become `Result`/`Outcome` values. The exception's message text, and the file and line it records, are not modelled; only the kind of failure and its position are.
- `Stack.UInt32Parameter.Parse` builds the object after parsing succeeds, instead of constructing it in place and throwing out of the constructor. A failed parse therefore leaves no object behind, as in the library.
- `EncodeStream` is represented by the text the parameter writes to it. Stream chaining and the stream's other contents are not modelled.
- The parameter-name table (`ParameterTypes`) is not part of this model. Only `expires` is named; every other type is represented by its registered name, which may not be `expires` (each type has its own name; `Stack.NameIdentifiesExpires` states that the name `expires` belongs to the `expires` type alone).
- `clone` returns the new object typed as its `Parameter` base class. The class hierarchy and virtual dispatch are not modelled.
