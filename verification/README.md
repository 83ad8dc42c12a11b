# mongoc-util helpers in Dafny

A model of the small pure helpers of the MongoDB C driver's
`src/mongoc/mongoc-util.c`, with proofs of what each one promises:

- `_mongoc_get_db_name`: the database part of a `db.collection` namespace (module `Namespace`);
- `mongoc_parse_port`: a decimal TCP port read with `strtoul` and range-checked (module `Port`);
- `mongoc_lowercase`: ASCII lowercasing into a caller's buffer (module `Lowercase`);
- `_mongoc_get_command_name`: a command's name, looking through a `$query` / `query` wrapper (module `CommandName`);
- `_mongoc_get_server_id_from_opts`: the optional positive `serverId` option (module `ServerId`);
- `_mongoc_validate_update` and the three `bson_validate` wrappers (module `Validate`);
- the hex formatting of `_mongoc_hex_md5` (module `HexMd5`);
- `_mongoc_strlen_or_zero` (module `CStrings`).

Shared pieces: `Wrappers` (Option), `CStrings` (C strings, `strlen`, the
`bson_strncpy` assumption), `Errors` (error domain and code), `Bson`
(ordered documents with nested documents, and the first-match key lookup
`bson_iter_init_find` performs).

C conventions map as follows. A `const char *` is a `CString`: a `string`
with no NUL in it. A NULL pointer is `None`. An out-parameter becomes part of
a result datatype. For `*port` and the `buf` buffer, the caller's old
contents are an argument, so "left unchanged" can be stated. The `db` buffer
is not modelled, only the string left in it.

Stated assumptions about code outside the file:
- `bson_strncpy(dst, src, size)` copies at most `size - 1` characters and always terminates (`CStrings.StrNCopy`).
- `MONGOC_NAMESPACE_MAX` is a positive constant from a header; it is the parameter `nsMax`.
- `bson_validate` is uninterpreted: a `Validator` function the caller supplies.
- The MD5 digest is uninterpreted: a function from the input to 16 bytes.
- `unsigned long` is 64 bits wide (LP64), and `isspace` / `tolower` are those of the "C" locale.

The driver's server discovery, monitoring and server-selection machinery
lives in other files. It is not part of this model.

## Model

| member | source | states |
|---|---|---|
| CStrings.StrlenOrZero | src/mongoc/mongoc-util.c:149-153 | NULL gives 0; otherwise the result is the position of the first terminator, with no terminator before it |
| CStrings.StrlenOrZeroInMemory | src/mongoc/mongoc-util.c:149-153 | for a string laid out in memory, the length read back is the string's own length, whatever follows the terminator |
| Namespace.IndexOf | src/mongoc/mongoc-util.c:131 | `strstr` with a one-character needle: None exactly when the character is absent, otherwise the position of its first occurrence |
| Namespace.GetDbName | src/mongoc/mongoc-util.c:123-139 | the database name is a prefix of the namespace, contains no '.', is at most nsMax - 1 long, and stops early only at a '.' or at the end of the namespace |
| Namespace.GetDbNameLength | src/mongoc/mongoc-util.c:131-138 | its length is min(position of the first '.', or the whole length, nsMax - 1) |
| Namespace.GetDbNameIsLongest | src/mongoc/mongoc-util.c:131-138 | every dot-free prefix of the namespace that fits the buffer is a prefix of the database name |
| Namespace.GetDbNameOfNamespace | src/mongoc/mongoc-util.c:123-139 | splitting `db + "." + coll` gives `db` back when `db` has no dot and fits the buffer |
| Namespace.GetDbNameIdempotent | src/mongoc/mongoc-util.c:123-139 | the database name of a database name is itself |
| Port.StrToUL | src/mongoc/mongoc-util.c:300 | `strtoul(s, NULL, 10)`: a numeral too large saturates to ULONG_MAX; a non-negative one gives its value; a negative one gives the unsigned negation (value + result is 0 or 2^64) |
| Port.ParsePort | src/mongoc/mongoc-util.c:295-309 | success exactly when the numeral read is 1..65535, or is negative with magnitude in 2^64-65535..2^64-1; on success `*port` is the value (resp. 2^64 minus the magnitude); on failure `*port` is unchanged |
| Port.ParsePortOfDecimal | src/mongoc/mongoc-util.c:300-308 | any port 1..65535 written in decimal reads back as itself, after optional white space and '+', and with any non-digit text after it |
| Port.ParsePortRejectsNonNumeric | src/mongoc/mongoc-util.c:300-305 | a string with no digits where `strtoul` looks (including the empty string) is refused and `*port` is unchanged |
| Port.ParsePortRejectsOutOfRange | src/mongoc/mongoc-util.c:302-305 | "0" and any value above 65535 are refused and `*port` is unchanged |
| Port.ParsePortAcceptsNegated | src/mongoc/mongoc-util.c:300-308 | as written, `"-" + decimal(2^64 - k)` is accepted as port k for every k in 1..65535 |
| Port.ParsePortStrict | src/mongoc/mongoc-util.c:295-309 | corrected parser: success exactly when the numeral is non-negative and 1..65535, and then `*port` is its value; `*port` is unchanged on failure |
| Port.ParsePortStrictOfDecimal | src/mongoc/mongoc-util.c:300-308 | the corrected parser still reads every rendered port back to itself |
| Port.ParsePortStrictRefusesNegated | src/mongoc/mongoc-util.c:302-305 | the corrected parser refuses every negative numeral |
| Lowercase.LowercaseInto | src/mongoc/mongoc-util.c:287-293 | writes `tolower(src[i])` at each position i < \|src\|, writes no terminator, and leaves every later buffer position unchanged |
| Lowercase.LowerIdempotent | src/mongoc/mongoc-util.c:290-292 | lowering twice is the same as lowering once |
| Lowercase.LowerFixesExactlyLowerCase | src/mongoc/mongoc-util.c:290-292 | a string is unchanged by lowering exactly when it holds no upper-case ASCII letter |
| Lowercase.LowerEqualIffCaseInsensitive | src/mongoc/mongoc-util.c:290-292 | two strings lower to the same text exactly when they agree position by position up to ASCII case |
| CommandName.GetCommandName | src/mongoc/mongoc-util.c:87-120 | no name exactly for the empty document; otherwise the first key, except that a first key starting with '$' (resp. equal to "query") is replaced by the first key of a non-empty document held under the first "$query" (resp. "query") field |
| CommandName.PlainCommandName | src/mongoc/mongoc-util.c:101-119 | a command whose first key neither starts with '$' nor is "query" is named by that key, whatever follows |
| CommandName.WrappedCommandName | src/mongoc/mongoc-util.c:103-117 | wrapping a plain command as `{$query: command, ...}` leaves its name unchanged |
| CommandName.ModifierFirstCommandName | src/mongoc/mongoc-util.c:107-117 | the same holds when a '$' modifier such as `$readPreference` comes before `$query` |
| CommandName.QueryWrappedCommandName | src/mongoc/mongoc-util.c:109-117 | the same holds for the `{query: command, ...}` wrapper |
| ServerId.GetServerIdFromOpts | src/mongoc/mongoc-util.c:156-192 | `*server_id` is 0 unless a positive integer was given; a missing option succeeds with 0; a non-integer or non-positive value fails with the caller's domain and code; a positive value is stored reduced modulo 2^32; the error is written exactly on failure |
| ServerId.ServerIdRoundTrip | src/mongoc/mongoc-util.c:172-191 | every server id 1..2^32-1 stored under "serverId" as an int32 or an int64, with any other options before or after it, reads back unchanged |
| ServerId.ServerIdTruncates | src/mongoc/mongoc-util.c:184-189 | as written, serverId 2^32 reads as 0 with success, and 2^32 + 5 reads as 5 |
| ServerId.GetServerIdFromOptsChecked | src/mongoc/mongoc-util.c:156-192 | corrected reading: success with 0 exactly when no serverId was given; success otherwise returns the value given; integers outside 1..2^32-1 are refused |
| ServerId.CheckedAgreesBelowModulus | src/mongoc/mongoc-util.c:184-189 | the corrected reading differs from the one as written only for values of 2^32 or more |
| Validate.ValidateLegacyIndex | src/mongoc/mongoc-util.c:195-211 | valid exactly when `bson_validate` passes with UTF-8, empty-key and '$'-key checks (dots allowed); otherwise a command / invalid-argument error whose message is about a legacy index |
| Validate.ValidateNewDocument | src/mongoc/mongoc-util.c:214-230 | valid exactly when `bson_validate` passes with the insert flags (UTF-8, empty, '.' and '$' keys); otherwise a command / invalid-argument error whose message is about a document to insert |
| Validate.ValidateReplace | src/mongoc/mongoc-util.c:233-245 | valid exactly when `bson_validate` passes with the insert flags; otherwise a command / invalid-argument error whose message is about a replacement document |
| Validate.ValidateUpdate | src/mongoc/mongoc-util.c:248-285 | valid exactly when `bson_validate` passes with UTF-8 and empty-key checks and every top-level key starts with '$' (so the empty update is valid whenever `bson_validate` accepts it); every refusal is a command / invalid-argument error; a refusal past validation names the first key that is not an operator |
| Validate.ReplaceAgreesWithInsert | src/mongoc/mongoc-util.c:214-245 | a replacement is accepted exactly when a new document would be; only the message differs |
| Validate.InsertFlagsAreStrictest | src/mongoc/mongoc-util.c:195-230 | for a validator that is stricter with more flags, every insertable document passes the legacy-index check and the update flags |
| HexMd5.HexNibbles | src/mongoc/mongoc-util.c:57-59 | characters 2i and 2i+1 of the `%02x` text are the high and low nibble of byte i |
| HexMd5.HexIsLowerHex | src/mongoc/mongoc-util.c:57-59 | every character of the `%02x` text is one of 0-9, a-f |
| HexMd5.UnhexHex | src/mongoc/mongoc-util.c:57-60 | reading the hex text of any bytes gives the bytes back |
| HexMd5.HexUnhex | src/mongoc/mongoc-util.c:57-60 | any lower-case hex text that reads as bytes is exactly the hex text of those bytes |
| HexMd5.FormatDigest | src/mongoc/mongoc-util.c:57-60 | 32 characters, all from [0-9a-f]; characters 2i and 2i+1 are the high and low nibble of digest byte i; the text reads back as the digest |
| HexMd5.HexMd5 | src/mongoc/mongoc-util.c:45-63 | the result is 32 lower-case hex characters that read back as the MD5 digest of the input |

## Findings

| source | as written | input that shows it | evidently intended | confidence | as-written member | corrected member |
|---|---|---|---|---|---|---|
| src/mongoc/mongoc-util.c:300-308 | `strtoul` negates a '-' numeral in unsigned arithmetic, and the range check only sees the wrapped value | `"-18446744073709551615"` returns true with `*port` = 1 (64-bit `unsigned long`) | a negative numeral is out of range | high; not executed | Port.ParsePortAcceptsNegated (about Port.ParsePort) | Port.ParsePortStrict (with Port.ParsePortStrictOfDecimal, Port.ParsePortStrictRefusesNegated) |
| src/mongoc/mongoc-util.c:184-189 | a positive int64 is cast to `uint32_t` with no upper bound check | `{serverId: NumberLong(4294967296)}` returns true with server id 0, which callers read as "no serverId"; 4294967301 gives 5 | values above UINT32_MAX refused like non-positive ones | medium; not executed | ServerId.ServerIdTruncates (about ServerId.GetServerIdFromOpts) | ServerId.GetServerIdFromOptsChecked (with ServerId.CheckedAgreesBelowModulus) |

## Left out

- `_mongoc_rand_simple` (lines 25-42): the platform random number generator is not deterministic.
- `_mongoc_usleep` (lines 66-84): OS timers and sleeping.
- `_mongoc_bson_destroy_if_set` (lines 141-147): memory management only.
- The MD5 computation (`bson_md5_*`, lines 53-55): it is libbson code. A function parameter stands for it.
- The `bson_validate` flag semantics: libbson code. A function parameter stands for it.
- Error message texts, the `ENTRY`/`RETURN` trace macros, and `bson_set_error` formatting: the model keeps domain and code, which kind of complaint a validator's message makes, and the offending key for updates.
- `bson_iter_init` failing on a corrupt document (lines 97, 263-269): documents in the model are always well-formed, so the "update document is corrupt" error cannot arise.
- `BSON_ASSERT` on NULL arguments (lines 95, 129, 170): the model's argument types are never NULL.
- `strtoul`'s `errno` and locale-dependent behaviour: only the returned value is modelled, for the "C" locale.
- `tolower` on negative `char` values is undefined behaviour in C. The model maps only 'A'-'Z' and leaves every other character as it is.
- Undefined behaviour from a caller buffer that is too small, or a string with no terminator, is excluded by `requires`. This is the precondition the C code leaves to its callers.
- The zero padding `strncpy` writes into `db` after the terminator: only the string left in `db` is modelled.
- The `bson_strdup` copy `_mongoc_hex_md5` returns, and the pointer into the document `_mongoc_get_command_name` returns: both are modelled as string values.
