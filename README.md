# Fee manager registry, modelled in Dafny

The fee manager is a small HTTP service that keeps, in memory, a map from
validator BLS public keys to Eth1 payout addresses. This project models its
two parts:

- the identity validators: `TryFrom<&str>` for `BLSPubkey`, and both
  `TryFrom<&str>` and `TryFrom<String>` for `Eth1Address`. They live in
  `mev.dfy` (module `Mev`). The pieces of Rust's `str` they rely on are in
  `rust_str.dfy` (module `RustStr`): byte length, `get(0..2)` and
  lowercasing.
- the registry and its handlers: `pubkey_get`, `pubkey_set`, `list_mev`,
  `healthcheck` and `handle_error`. They live in `service.dfy` (module
  `Service`). The registry is a `Registry` class whose `db` map field the
  write handler replaces.

Each conversion checks the byte length first: 98 for a key, 40 for an
address. It then checks that the first two bytes are exactly `0x`, and on
success wraps the lowercased input. The result type `Mev.Outcome` has three
cases: `Ok`, `Err` with the source's fixed message, and `Panic`. A conversion
panics when byte 2 falls inside a multi-byte character, because
`value.get(0..2).unwrap()` then unwraps `None`.

A handler's result is a `Service.Reply`. It is one of four things: a 200
text body, the handler's own status, a rejection by one of axum's extractors
before the handler body runs, or a panic.

Points where the model follows the code's actual behaviour:

- The code measures length in UTF-8 bytes (`str::len`), not in characters.
- The conversions are not total. A 98-byte key whose second character takes
  two bytes (`"0é"` followed by 95 zeros) makes the conversion panic
  (`Mev.PubkeyConversionCanPanic`).
- The address length error says "pubkey": `"The length of pubkey should be 40"`.
- An over-long body is rejected by the `ContentLengthLimit` extractor, not
  by the handler. The model records that it is rejected before address
  validation and that nothing is written. It does not record which status
  axum sends.

## Model

| member | source | states |
|---|---|---|
| `RustStr.ByteLen` | src/mev.rs:17 | `len()` counts UTF-8 bytes: at least one and at most four per character, exactly one per character for ASCII text |
| `RustStr.GetPrefix2Spec` | src/mev.rs:19 | `get(0..2)` returns a value exactly when byte 2 is a character boundary (some prefix of whole characters is 2 bytes long) |
| `RustStr.GetPrefix2Is0x` | src/mev.rs:19 | the two-byte slice equals `"0x"` exactly when the first two characters are `0` and `x` |
| `RustStr.GetPrefix2` | src/mev.rs:19 | `value.get(0..2)` (also src/mev.rs:43 and 57): when it returns a slice, that slice is a prefix of the input exactly two bytes long |
| `RustStr.Lower` | src/mev.rs:22 | `value.to_lowercase()` (also src/mev.rs:46 and 60), folding ASCII letters only: the result has as many characters as the input and no upper-case ASCII letter |
| `RustStr.LowerEqualWhenSameUpToAsciiCase` | src/mev.rs:22 | two strings whose characters are, position by position, equal or the upper- and lower-case forms of one ASCII letter lowercase to the same string |
| `RustStr.SameUpToAsciiCaseWhenLowerEqual` | src/mev.rs:22 | for ASCII strings, the converse: equal lowercase forms mean the strings differ only in ASCII letter case |
| `Mev.Validate` | src/mev.rs:16-23 | the check sequence shared by all three conversions (also src/mev.rs:40-48 and 54-62): an error is either the given length error or the prefix error; success means the byte length is as expected and the result starts with `0x` and is already lowercase |
| `Mev.ValidateCases` | src/mev.rs:16-23 | the shared check sequence: wrong byte length gives the length error whatever the prefix; at the right length it panics iff byte 2 splits a character, succeeds iff the text starts with `0x`, and otherwise gives the prefix error; success carries the lowercased input |
| `Mev.BlsPubkeyFromStr` | src/mev.rs:16-23 | `Err("The length of pubkey should be 98")` iff the byte length is not 98; `Ok` iff it is 98 and the text starts with `0x`; the key is the lowercased input |
| `Mev.Eth1AddressFromStr` | src/mev.rs:40-48 | the same rules with length 40 and `Err("The length of pubkey should be 40")` |
| `Mev.Eth1AddressFromString` | src/mev.rs:54-62 | `Ok` iff the byte length is 40 and the text starts with `0x`, holding the lowercased input |
| `Mev.Eth1AddressConversionsAgree` | src/mev.rs:40-62 | the owned-string and borrowed-string conversions give identical results on every input |
| `Mev.DisplayIsNormalized` | src/mev.rs:31-35 | the text `Display` writes for an accepted address starts with `0x` and contains no upper-case ASCII letter, and if it is 40 bytes long it converts back to the same address |
| `Mev.DisplayRoundTrip` | src/mev.rs:31-46 | for ASCII input, the displayed address is the lowercased input, and converting it again gives the same address |
| `Mev.AcceptedPubkeyIsNormalized` | src/mev.rs:21-22 | every key a conversion produces starts with `0x` and contains no upper-case ASCII letter |
| `Mev.AcceptedAddressIsNormalized` | src/mev.rs:45-46 | every address a conversion produces starts with `0x` and contains no upper-case ASCII letter |
| `Mev.ValidateIdempotent` | src/mev.rs:21-22 | for ASCII input, the normalized text has exactly the expected length, starts with `0x`, and validates to itself |
| `Mev.PubkeyNormalizationIdempotent` | src/mev.rs:21-22 | for ASCII input, an accepted key is 98 characters long, starts with `0x`, and re-converting it gives the same key |
| `Mev.AddressNormalizationIdempotent` | src/mev.rs:45-46 | for ASCII input, an accepted address is 40 characters long, starts with `0x`, and re-converting it gives the same address |
| `Mev.ValidateIgnoresCase` | src/mev.rs:17-22 | inputs that differ only in ASCII case and share their first two characters get the same outcome |
| `Mev.PubkeyIgnoresCase` | src/mev.rs:17-22 | the same for the key conversion: same error, same panic or the same key |
| `Mev.AddressIgnoresCase` | src/mev.rs:41-46 | the same for the address conversion |
| `Mev.AcceptedPubkeysIgnoreCase` | src/mev.rs:22 | two accepted inputs that differ only in ASCII case give equal keys |
| `Mev.AcceptedAddressesIgnoreCase` | src/mev.rs:46 | two accepted inputs that differ only in ASCII case give equal addresses |
| `Mev.UpperCasePrefixRejected` | src/mev.rs:19-20 | a 98-byte key starting `0X` gets the prefix error, because the prefix check is case-sensitive |
| `Mev.PubkeyConversionCanPanic` | src/mev.rs:17-19 | a 98-byte key whose byte 2 lies inside `é` makes the conversion panic |
| `Mev.BlsConvertTest` | src/mev.rs:69-83 | the six outcomes asserted by the unit test `bls_convert` |
| `Service.Registry.constructor` | src/mev.rs:4-7 | the shared state starts as an empty map, which trivially satisfies the registry invariant |
| `Service.Registry.Get` | src/main.rs:72 | returns the stored address iff the key is present |
| `Service.Registry.Set` | src/main.rs:86 | inserts or overwrites the one entry and keeps the invariant that every stored pair passed validation |
| `Service.Registry.Snapshot` | src/main.rs:96-97 | returns the whole map as it is at the time of the call |
| `Service.Healthcheck` | src/main.rs:61-63 | always `"Application is live"`, and does not read the registry |
| `Service.PubkeyGet` | src/main.rs:65-77 | with a valid key: the stored address's display text if present, else 404; an invalid key is rejected by the extractor or panics; the registry is only read |
| `Service.PubkeySet` | src/main.rs:79-91 | a body over 1024*5000 bytes is rejected before address validation; a valid address is stored under the key and the reply is `"Inserted"`; an invalid one gives 400; every rejection or panic leaves the map unchanged; every other key keeps its address, the only key that can appear is the path's key, and the map grows by at most one entry; the registry invariant is kept |
| `Service.ListMev` | src/main.rs:93-98 | the listing equals the registry at call time, and every listed key and address starts with `0x` and contains no upper-case ASCII letter |
| `Service.HandleError` | src/main.rs:100-116 | `Elapsed` gives 408 `"request timed out"`, `Overloaded` gives 503 `"service is overloaded, try again later"`, anything else gives 500 `"Unhandled internal error: "` followed by the error text; each status belongs to exactly one kind |
| `Service.HandleErrorStatusIsError` | src/main.rs:100-116 | every answer is a 4xx or 5xx status, and two errors get the same status only when both are unclassified or they are equal |
| `Service.SetThenGet` | src/main.rs:72-87 | for an ASCII body, after a successful write, reading the same key returns the lowercased body |
| `Service.GetOnFreshRegistry` | src/main.rs:70-76 | on a fresh registry every valid key is not found (404) |
| `Service.TwoWritesThenList` | src/main.rs:84-97 | for ASCII keys and bodies, two writes to keys that are distinct after lowercasing produce a listing of exactly those two pairs; a listing taken between the writes keeps showing only the first |

## Left out

- `main` (src/main.rs:25-59) is not modelled: the tracing setup, the `RUST_LOG` read, router construction, socket bind and the hyper server are I/O and framework wiring.
- The middleware layers `load_shed`, `concurrency_limit(1024)` and `timeout(10s)` are not modelled, because they concern concurrency and wall-clock time. Only the classification in `handle_error` is modelled, and the boxed error's `Display` text becomes the `description` parameter.
- The `Arc<RwLock<…>>` around the registry is not modelled: requests run one at a time. The same goes for the panic of `.unwrap()` on a poisoned lock. Interleavings of concurrent writers are not covered.
- The statuses axum sends when the `Path` or `ContentLengthLimit` extractors reject a request are not modelled. The same goes for percent-decoding of the path and for a missing `Content-Length` header. The model checks the body's byte length where axum checks the declared `Content-Length`. The body arrives as already-decoded text, so the `String` extractor's rejection of invalid UTF-8 is not modelled.
- The JSON serialization in `list_mev` and serde deserialization of the key types are library behaviour; only the snapshot value is modelled.
- RustStr.Lower: folds only the ASCII letters `A`–`Z`. Rust's `to_lowercase` also lowers non-ASCII letters and can change the byte length and the number of characters (`İ`, U+0130, becomes two characters). So every lemma whose statement depends on the lowercased text's length or content beyond ASCII is stated for ASCII input: `Mev.ValidateIdempotent`, `Mev.PubkeyNormalizationIdempotent`, `Mev.AddressNormalizationIdempotent`, `Mev.DisplayRoundTrip`, `Service.SetThenGet` and `Service.TwoWritesThenList`.
- RustStr.SameUpToAsciiCaseWhenLowerEqual: stated for ASCII strings only. Rust lowercases `"É"` and `"é"` to the same `"é"`, although they are not ASCII case partners.
- Mev.PubkeyNormalizationIdempotent: holds for ASCII input only. With Unicode lowercasing a non-ASCII upper-case letter can change length and make the re-conversion fail.
- Mev.AddressNormalizationIdempotent: holds for ASCII input only, for the same reason.
- Mev.DisplayRoundTrip: holds for ASCII input only, for the same reason.
- Service.SetThenGet: stated for an ASCII body only. Rust lowercases a non-ASCII upper-case letter in the body too, so the reply for `"0xÉ"` followed by 36 zeros would differ from this model's `Lower`.
- Service.TwoWritesThenList: stated for ASCII keys and bodies only. Two keys such as `"0xÉ…"` and `"0xé…"` are distinct under this model's `Lower` but the same key in Rust, where the listing would hold one pair.
