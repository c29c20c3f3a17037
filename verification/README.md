# error-packer, modelled in Dafny

error-packer (Go package `ep`) fills a uniform response envelope. A handler holds a
response struct whose fields carry an `ep` tag, and calls `Packer.Pack(err)`. Pack first
turns `err` into an `ErrPack`, a (code, message) descriptor:

- nil becomes `ErrOK`;
- an error that is an `ErrPack`, or wraps one, becomes that `ErrPack`;
- anything else becomes `ErrUnknown`'s code with the error's own text as the message.

Pack then builds a fresh zero-valued copy of the struct. It fills each field from its tag:

- an empty tag leaves the field zero;
- `err.msg` sets the message;
- `err.code` sets the code;
- any other tag is a literal. It is parsed according to the field's Go type, and any
  parse error is ignored.

The copy replaces the packer's value and is returned. `err_pack.go` defines `ErrPack`,
its `Error()` text and a catalog of fifteen descriptors. Their codes follow the four-digit
`A B CD` convention: A is the outcome, B the category and CD the specific error.

The project has four modules:

- `Wrappers` (wrappers.dfy): the `Option` datatype.
- `Strconv` (strconv.dfy): the parts of Go's `strconv` that the packer calls. These are
  `ParseUint(s, 10, 64)` and `ParseInt(s, 10, 64)`, each a method with the digit loop that
  is proved equal to a loop-free specification function, and `ParseBool`. The module also
  has decimal formatting (`FormatNat`, `FormatInt`, `FormatBool`), and every parser is
  proved to read back what the formatter writes.
- `ErrPacks` (err_pack.dfy): the `ErrPack` datatype (the code is a Go `int16`) and
  `Error()`. `Error()` is proved injective through an explicit reader (`ParseErrorText`).
  The module also has the catalog as named constants and an ordered `Catalog` of
  (name, value) entries, with lemmas on the digit convention.
- `Packing` (packer.dfy): the rest of the packer.
  - Go errors as a datatype (`Nil`, an `ErrPack`, a wrapper with its own text, any other
    error with its text), with `errors.As` and the normalisation (`Normalize`).
  - Reflection as data: a struct is a field table (name, Go type, exported, `ep` tag) plus
    one value per field.
  - `PackedValues`: the per-field rule as a specification function.
  - The class `Packer`. It holds the value `v`, and its `Pack` method fills a freshly
    allocated array field by field and then overwrites `v`.
  - `PackTwice`: a client that packs twice and asserts identical results.

The model follows the code as written:

- it does not recurse into nested structs;
- `-` is an ordinary literal, not a skip marker;
- fields without a tag come out zero, not copied from `V`;
- literal parse errors are dropped;
- the catalog has exactly the fifteen entries of `err_pack.go:36-50`.

## Model

| member | source | states |
|---|---|---|
| `Strconv.ParseUintSpec` | packer.go:60-61 | the value is at most 2^64-1; the status is Ok exactly for a non-empty all-digit string whose value fits, and then the value is that number; ErrRange happens exactly when the digits before the first non-digit exceed 2^64-1, and then the value is 2^64-1; a syntax error gives 0 |
| `Strconv.ParseUint` | packer.go:60 | the digit loop returns what `ParseUintSpec` states: a non-digit gives a syntax error unless the digits before it have already overflowed, which gives a range error |
| `Strconv.ParseIntSpec` | packer.go:57-58 | the value is an int64; a successful parse gives the signed decimal value of the text after the optional sign; for a sign followed by digits, Ok holds exactly when that value is an int64; a syntax error happens exactly for empty text or a syntax error of ParseUint on the text after the sign, and gives 0; a range error gives MinInt64 for a '-' sign and MaxInt64 otherwise |
| `Strconv.ParseInt` | packer.go:57 | the sign handling and the int64 range clamp return what `ParseIntSpec` states (value of a successful parse, the bound of the sign on overflow, 0 on a syntax error) |
| `Strconv.ParseBool` | packer.go:63-64 | Ok exactly for the twelve accepted spellings, never a range error; the value is true exactly for the six true spellings and false otherwise |
| `Strconv.ParseIntOfFormatInt` | packer.go:57 | every int64 written in decimal (for example "-1") parses back to itself with no error |
| `Strconv.ParseUintOfFormatNat` | packer.go:60 | every uint64 written in decimal parses back to itself with no error |
| `Strconv.ParseBoolOfFormatBool` | packer.go:63 | "true" and "false" parse back to their truth values |
| `ErrPacks.ErrorTextRoundTrip` | err_pack.go:25-27 | the text `"error: code=" + decimal code + ", Msg=" + msg` can be read back to the same code and message |
| `ErrPacks.ErrorTextInjective` | err_pack.go:25-27 | two descriptors with the same `Error()` text are equal |
| `ErrPacks.CatalogCodesHaveFourDigits` | err_pack.go:35-51 | every catalog code lies between 1000 and 9999 (and is an int16 by its type) |
| `ErrPacks.CatalogOutcomeDigit` | err_pack.go:29-51 | the leading digit is 2 only for ErrOK, 4 exactly for the ErrInput entries, and otherwise 5 |
| `ErrPacks.CatalogCategoryDigit` | err_pack.go:29-51 | the second digit is 1 for the input errors, 2 for the type/parse/set errors, 3 for the database errors, 4 for the communication error, 6 for ErrUnknown, 0 for ErrOK, and never 5 |
| `ErrPacks.CatalogSpecificDigits` | err_pack.go:29-51 | the last two digits are 00 exactly for ErrOK and ErrUnknown, and 01 to 99 otherwise |
| `ErrPacks.CatalogCodesDistinct` | err_pack.go:35-51 | codes are pairwise distinct, so only the first entry equals ErrOK; ErrParseToken and ErrParseCookie share their message |
| `Packing.AsFindsFirstInChain` | packer.go:33 | errors.As yields p exactly when p is the first ErrPack in the error's unwrap chain |
| `Packing.NormalizeNil` | packer.go:30-31 | a nil error becomes ErrOK, code 2000, message "success" |
| `Packing.NormalizeKeepsErrPack` | packer.go:32-33 | an ErrPack, bare or wrapped any number of times, is used unchanged (code and message) |
| `Packing.NormalizeUnclassified` | packer.go:33-36 | a non-nil error with no ErrPack in its chain becomes code 5600 with the error's own text; ErrUnknown keeps "unknown error" |
| `Packing.NormalizeIdempotent` | packer.go:29-37 | a normalised descriptor, raised again as an error, normalises to itself |
| `Packing.NormalizeIsOkIff` | packer.go:29-37 | the descriptor equals ErrOK exactly when the error is nil or carries ErrOK itself, so the test at line 73 singles out failures |
| `Packing.ToSigned` | packer.go:50 | storing through SetInt gives a value of the field's width congruent to the input modulo 2^width (its low bits, read as two's complement), and the input itself when it already fits |
| `Packing.ToUnsigned` | packer.go:61 | storing through SetUint gives a value of the field's width congruent to the input modulo 2^width (its low bits), and the input itself when it already fits |
| `Packing.PackedIsWellTyped` | packer.go:39-71 | the packed struct has the same field table as V and a value of the declared type in every field |
| `Packing.UntaggedFieldIsZero` | packer.go:39-44 | a field with an empty tag is zero in the output, whatever V held |
| `Packing.ErrTagsCarryDescriptor` | packer.go:45-52 | `err.msg` receives the normalised message; `err.code` receives the normalised code on every signed field of 16 bits or more (an int8 field gets the code truncated to 8 bits); both tags are tested before the type switch |
| `Packing.SignedLiteralRoundTrip` | packer.go:56-58 | on an int or int64 field, a literal that is the decimal text of n gives n |
| `Packing.UnsignedLiteralRoundTrip` | packer.go:59-61 | on a uint or uint64 field, a literal that is the decimal text of n gives n |
| `Packing.BoolLiteral` | packer.go:62-64 | on a bool field, a literal gives true exactly when it is one of ParseBool's six true spellings |
| `Packing.InvalidLiteralIsZero` | packer.go:53-64 | a literal that its field's parser rejects with a syntax error leaves the field zero |
| `Packing.UnhandledTypeIsZero` | packer.go:68-70 | int8, int16, uint8, uint16, uintptr and other types stay zero under a literal tag |
| `Packing.FillField` | packer.go:45-70 | one iteration of the loop for a tagged field returns the specified value, and that value has the field's type |
| `Packing.Packer.constructor` | packer.go:23-25 | a packer holds the given value, which is a well-typed struct |
| `Packing.Packer.Pack` | packer.go:28-77 | V becomes the packed struct and is returned, and stays well typed; the result depends only on V's field table and the normalised error, so a second Pack with the same error returns the same value |
| `Packing.UserLoginRespWithInputBody` | example/main.go:15-26 | the example response packed with ErrInputBody gives Seq -1, Code 4102, Msg "input body error" and a nil User |

## Left out

- Go reflection (`reflect.ValueOf`, `New`, `Set`) is replaced by the explicit field table and value sequence; `V` always holds a struct value.
- Reflection panics are not modelled. `Packable` is a precondition of Pack: a tagged field is exported, `err.msg` is on a `string` field and `err.code` is on a signed integer field. A `V` that is nil or not a struct is excluded by the types.
- Float fields: the value `strconv.ParseFloat` returns, and its rounding to `float32`, are not computed. A packed float field is the symbolic `FloatFromLiteral(tag)`.
- Interface-typed fields are not modelled: Go dispatches them on the dynamic type of the value they hold.
- Named types (such as `type Name string`) are not modelled as their underlying kind. They count as `GoOther`, so `err.msg` and `err.code` on them, which Go would accept, are excluded.
- `int` and `uint` are taken to be 64 bits wide.
- `errors.As` is modelled for single-wrap chains only. Multi-error trees (`errors.Join`), custom `As` methods and `*ErrPack` pointers (treated like any other error) are not modelled. A wrapper's `Error()` text is free text.
- `fmt.Sprintf` is modelled only as decimal formatting of the code.
- The empty logging branch (packer.go:73-75) does nothing and is not modelled.
- The HTTP plumbing of example/main.go is not modelled; only its `UserLoginResp` type serves as an instance.
- Go's `strconv` belongs to the standard library, not to error-packer. The parsers follow its documented results (0 on a syntax error, the bound of the sign on a range error) and its one-pass digit loop.
