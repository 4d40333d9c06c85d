# Meridian object contracts, verified

A Dafny model of the Object contract library in `src/meridian_storage/object_common` and of the in-memory
target its tests execute operations on, with proofs of what the two promise together. `dafny verify
dfyconfig.toml` checks everything.

The model has five connected parts.

* **Streaming payloads** (`Digest`, `Transfers`, `Payloads`, `RegistryProtocol`). Streams and sinks are
  adversaries: a script says what the i-th `read` and the i-th `write` answer, including short reads,
  oversized chunks, non-bytes, exceptions, partial writes, and cancellation. `Transfers` describes a transfer
  as a run on values; `Payloads` has the classes and the loop, proved to do what the run says. The hash is a
  fold of an uninterpreted byte step. `RegistryProtocol` interleaves the critical sections of any number of
  threads, and relates each call of the registry to its steps.
* **Normalization** (`Core`, `Validation`, `References`, `Handles`, `Requests`, `Registry`, `Catalog`,
  `Meaning`, `TreeOrder`, `CatalogOrder`, `Provider`). A dictionary is the sequence of its entries in insertion
  order, so that order-insensitivity is a theorem. `Catalog.Normalized` says on values what an expression becomes,
  and `Meaning` what that is in terms of the arguments it came with; `Provider` is the normalizer that reads and
  overwrites one argument dictionary in place, proved equal to it.
* **The store** (`Dictionary`, `Store`, `MemoryTarget`, `Conformance`). `Store` is the refinement of the object
  dictionary to a plain map from keys to bytes and their description; `MemoryTarget` executes normalized
  operations; `Conformance` has the exchanges of the conformance suite: normalize an expression, execute the
  operation, transfer the reply.
* **Signatures** (`Base64Url`, `Signed`). Unpadded base64url (section 5 of RFC 4648, without the padding of
  section 3.2 and tolerating the trailing bits of section 3.5), and signed references from signing to
  verification across the wire.
* **Multipart, ranges, and the put state machine** (`Multipart`, `Ranges`, `PutState`), over `Ordering` and
  `Basics`.

Case folding beyond ASCII, the `resource` argument parser, the checks of resource and schema names, the profile
parser, timestamp parsing, and canonical JSON bytes come from elsewhere; they are the functions of
`Core.Platform`, and nothing is assumed about them. Hash step, signer, and random draws are parameters.

Three promises hold under a condition, and the condition is proved exact:

* A transfer need not return. Its run returns if and only if a length is declared or some iteration does not go
  on, because the stream ends or misbehaves, the transfer is cancelled, or the sink fails
  (`Transfers.HaltsExactly`); `Transfers.EndlessWitness` is a run that does not. With a declared length L it returns within L + 1 iterations
  (`Transfers.DeclaredLengthHalts`).
* Re-encoding a decoded signature gives the text back if and only if its unused trailing bits are zero
  (`Base64Url.EncodeDecode`). "AB" is a text it does not give back (`Base64Url.TrailingBitsWitness`).
* Normalizing again gives the same operation; for `create_resource` if and only if the profile parser, which is
  not part of this library, leaves its own canonical profile as it is and free of private keys
  (`Catalog.NormalizationIsIdempotent`). Nothing is claimed about whether the released parser does;
  `Catalog.UnstableProfileWitness` is one that does not.

## Model

| member | source | states |
|---|---|---|
| `Digest.AbsorbConcat` | src/meridian_storage/object_common/codec/digest.py:24-29 | Feeding the hash two chunks one after the other leaves it as feeding their concatenation does. |
| `Digest.DigestSays` | src/meridian_storage/object_common/contracts/payloads.py:274-289 | A digest is `sha256:` and the rendering of the state that the initial state and one step a byte, in order, lead to. |
| `Digest.Accumulator.constructor` | src/meridian_storage/object_common/codec/digest.py:15-18 | A new accumulator has been fed nothing and is not finished. |
| `Digest.Accumulator.Update` | src/meridian_storage/object_common/codec/digest.py:24-29 | Appends to the bytes fed, or refuses and changes nothing once finished. |
| `Digest.Accumulator.Finish` | src/meridian_storage/object_common/codec/digest.py:31-38 | Usable once, even when the digest does not match; its identity is the digest and length of all the bytes fed. |
| `Digest.SplitDoesNotMatter` | src/meridian_storage/object_common/codec/digest.py:24-38 | Two ways of splitting the same bytes into updates give the same digest, that of the bytes in one piece. |
| `Transfers.DeclaredLengthHalts` | src/meridian_storage/object_common/contracts/payloads.py:276-286 | With a declared length L every run leaves the loop within L + 1 iterations, whatever the stream and the sink do. |
| `Transfers.HaltsExactly` | src/meridian_storage/object_common/contracts/payloads.py:245-286 | A run returns if and only if a length is declared or some iteration does not go on: the stream ends or misbehaves, the transfer is cancelled, or the sink fails. |
| `Transfers.EndlessWitness` | src/meridian_storage/object_common/contracts/payloads.py:245-286 | An endless stream of one-byte chunks, undeclared and taken whole, is a run that never returns. |
| `Transfers.GainIsBoundedPrefix` | src/meridian_storage/object_common/contracts/payloads.py:276-286 | On every exit the sink has gained a prefix of the stream, never a chunk over the requested size, and at most L plus one chunk. |
| `Transfers.SucceedsExactly` | src/meridian_storage/object_common/contracts/payloads.py:276-292 | A run succeeds exactly when its stream ends cleanly, uncancelled and completely written, on bytes that meet the declared length and digest; the sink then gained those bytes and the identity is theirs. |
| `Transfers.SucceedsWhenServed` | src/meridian_storage/object_common/contracts/payloads.py:276-292 | Spelled out over the answers themselves: a transfer returns normally exactly when the stream gives non-empty chunks within the size and then ends, every poll says no, the sink answers every write with nothing or the whole length, and the chunks in order have the declared length and digest; identity and sink contents are theirs. |
| `Transfers.YieldsExactly` | src/meridian_storage/object_common/contracts/payloads.py:276-292 | A run delivers exactly the bytes it is served so, when they have the declared length and digest. |
| `Transfers.CancellationStops` | src/meridian_storage/object_common/contracts/payloads.py:278-279 | A poll that says yes, the first one included, stops the run at that very chunk, before it is written, and the transfer fails as cancelled. |
| `Transfers.NothingIsWrittenWhenCancelled` | src/meridian_storage/object_common/contracts/payloads.py:278-280 | Whatever the stream gives at a poll that says yes, nothing of it reaches the sink. |
| `Transfers.ShortWriteStops` | src/meridian_storage/object_common/contracts/payloads.py:280-282 | A write answered with another count stops the run there; the transfer fails, and the sink keeps what it took. |
| `Transfers.YieldsOnce` | src/meridian_storage/object_common/contracts/payloads.py:276-292 | A clean run delivers one byte string only. |
| `Transfers.IdentityForgetsChunks` | src/meridian_storage/object_common/contracts/payloads.py:274-292 | Two successful transfers of the same bytes agree in identity and sink contents whatever their chunk sizes and short reads, and agree with an accumulator fed any split. |
| `Transfers.InMemoryRunIsClean` | tests/_memory_target.py:108-115 | Reading an in-memory stream in chunks of any size delivers exactly its data. |
| `Transfers.InMemoryRunOutcome` | tests/_memory_target.py:79-84 | Transferring an in-memory stream always ends, and succeeds exactly when its data meet the declared length and digest; it fails for too many bytes, too few, or else for the digest. |
| `Payloads.StreamSource.Open` | src/meridian_storage/object_common/contracts/payloads.py:111-117 | Gives out the caller's stream once and is consumed afterwards whatever happens. |
| `Payloads.FactorySource.Open` | src/meridian_storage/object_common/contracts/payloads.py:135-147 | Calls the factory unless it is one-shot and opened before; fails exactly when it may not, the factory raises, or what it made is no stream; a success is a fresh stream. |
| `Payloads.PayloadRegistry.Register` | src/meridian_storage/object_common/contracts/payloads.py:157-175 | Files the source under the minted token and returns the handle describing it, exactly when the expectations are well formed; otherwise nothing changes. |
| `Payloads.PayloadRegistry.Release` | src/meridian_storage/object_common/contracts/payloads.py:210-214 | Removes the token and says whether it was there; an ill-formed token is refused. |
| `Payloads.PayloadRegistry.Open` | src/meridian_storage/object_common/contracts/payloads.py:190-208 | A token that is not registered, or a claim of replayability other than the source's own, is refused as unavailable and changes nothing. Otherwise the source is called: a caller's stream is given once, a factory is called unless it is one-shot and used, and its answer decides; the token stays exactly when the source is replayable. |
| `Payloads.NextChunk` | src/meridian_storage/object_common/contracts/payloads.py:245-256 | One read: a non-empty chunk no longer than asked for, or the reason there is none. |
| `Payloads.Deliver` | src/meridian_storage/object_common/contracts/payloads.py:278-282 | Polls for cancellation before writing; the sink gains what its answer says it took. |
| `Payloads.Step` | src/meridian_storage/object_common/contracts/payloads.py:277-286 | One pass of the loop takes the exit the run takes and gives the sink what the run says. |
| `Payloads.Pump` | src/meridian_storage/object_common/contracts/payloads.py:276-286 | The loop leaves at the run's exit having read once per iteration, with the hash and length of what was received and the sink grown by the run's gain. |
| `Payloads.Drain` | src/meridian_storage/object_common/contracts/payloads.py:239-256 | A bad chunk size is refused only once the stream is open, and before anything is read or written. |
| `Payloads.Conclude` | src/meridian_storage/object_common/contracts/payloads.py:276-292 | The rest of a transfer once the handle is open has the run's verdict and gain, and closes what it opened. |
| `Payloads.Transfer` | src/meridian_storage/object_common/contracts/payloads.py:259-292 | Returns normally exactly when the handle opens, the size is between 1 and 16 MiB, and the run yields what was declared; the sink then gained that and the identity is its own. A refused handle touches nothing; a stream cancelled at its first chunk leaves the sink as it was; a factory's stream is closed exactly once, a caller's never, and the token stays exactly when its source is replayable. |
| `RegistryProtocol.OneShotStreamsOnce` | src/meridian_storage/object_common/contracts/payloads.py:97-147 | Under every interleaving, however many tokens name it, a one-shot source lets its first caller through and no other, and a replayable one every caller; each caller let through gets a stream or a factory failure, so a one-shot source streams at most once, and never after its one call failed. |
| `RegistryProtocol.RegistrySize` | src/meridian_storage/object_common/contracts/payloads.py:173-218 | With fresh tokens the registry's size is registrations minus successful releases minus one-shot pops, in every run. |
| `RegistryProtocol.RegisterStep` | src/meridian_storage/object_common/contracts/payloads.py:157-175 | A registration is one step of the protocol, or none when the expectations are ill formed. |
| `RegistryProtocol.ReleaseStep` | src/meridian_storage/object_common/contracts/payloads.py:210-214 | A release is one step of the protocol, or none when the token is ill formed, and says whether the protocol counted it. |
| `RegistryProtocol.OpenSteps` | src/meridian_storage/object_common/contracts/payloads.py:190-208 | An open is two steps of the protocol by one thread; the registry and the latches of all known sources are afterwards what the protocol says, and a stream is given out exactly when the protocol counts one. |
| `Handles.PayloadRoundTrip` | src/meridian_storage/object_common/contracts/payloads.py:60-81 | A well-formed payload handle read back from its wire form is itself. |
| `Handles.ImmutabilityRoundTrip` | src/meridian_storage/object_common/immutability/policy.py:30-39 | Immutability intent survives its wire form. |
| `Handles.RetentionRoundTrip` | src/meridian_storage/object_common/immutability/policy.py:64-78 | Retention intent survives its wire form. |
| `References.ReferenceRoundTrip` | contracts/object/meridian-object-expression.v1.schema.json:32-53 | An object reference survives its wire form, with and without a digest. |
| `Validation.TokenGrammar` | src/meridian_storage/object_common/_validation.py:53-57 | Alphanumeric at both ends, token characters between, and at most 512 long is enough for the opaque-token grammar. |
| `Validation.DigestGrammar` | src/meridian_storage/object_common/_validation.py:60-63 | A digest is exactly `sha256:` and 64 lower-case hexadecimal digits. |
| `Validation.BoundedExactly` | src/meridian_storage/object_common/_validation.py:43-50 | A bounded string is non-empty, within its bytes, and without control characters. |
| `Validation.Utf8LengthExactly` | src/meridian_storage/object_common/_validation.py:46-47 | Each character counts the bytes of its UTF-8 form. |
| `Validation.MediaTypeExactly` | src/meridian_storage/object_common/_validation.py:66-69 | A media type has exactly one slash, between two non-empty parts, no white space, and at most 255 bytes. |
| `Ordering.StringLessExactly` | src/meridian_storage/object_common/_validation.py:127 | Strings are ordered by the first position where they part: there one ends first, or has the lower character. |
| `Validation.SortedEntriesAscend` | src/meridian_storage/object_common/_validation.py:115 | Sorting entries with distinct names gives a strictly ascending arrangement of them. |
| `Validation.StringMapping` | src/meridian_storage/object_common/_validation.py:100-115 | Succeeds exactly on mappings within every bound and returns the sorted arrangement of their entries. |
| `Validation.StringMappingForgetsOrder` | src/meridian_storage/object_common/_validation.py:100-115 | Permuting a mapping's entries changes neither acceptance nor the result. |
| `Validation.StringSequenceIsSortedUnique` | src/meridian_storage/object_common/_validation.py:124-130 | Succeeds exactly on arrays of bounded strings without duplicates; the result is their strictly sorted arrangement. |
| `Validation.StringSequenceIsIdempotent` | src/meridian_storage/object_common/_validation.py:124-130 | The result is a fixed point. |
| `Validation.StringArrayForgetsOrder` | src/meridian_storage/object_common/_validation.py:124-130 | The order of the array, whatever it holds, decides neither acceptance nor the result. |
| `Validation.AcceptsExactlyPublicTrees` | src/meridian_storage/object_common/_validation.py:133-146 | A tree of any depth is accepted exactly when every mapping key reachable through mappings and arrays is a string that does not fold to a private name. |
| `Validation.AcceptanceIsStructural` | src/meridian_storage/object_common/_validation.py:133-146 | Arrays are accepted when their items are, dictionaries when their keys are public strings and their values accepted, scalars always. |
| `Validation.PrivateNamesAreRefused` | src/meridian_storage/object_common/_validation.py:18-40 | Every one of the 21 private names is refused. |
| `Validation.KeptCharacterStays` | src/meridian_storage/object_common/_validation.py:140 | A digit or lower-case letter survives folding in its place, so `region2` is not `region`. |
| `Validation.SpellingCannotHideAKey` | src/meridian_storage/object_common/_validation.py:140-142 | Neither ASCII punctuation nor ASCII letter case, anywhere in a key, changes whether it is private. |
| `Base64Url.DecodeEncode` | src/meridian_storage/object_common/codec/signed.py:216-238 | Every non-empty byte string decodes from its encoding, which is non-empty, inside the alphabet, and of length ceil(4n/3). |
| `Base64Url.DecodesExactly` | src/meridian_storage/object_common/codec/signed.py:229-238 | Exactly the non-empty texts over the alphabet whose length is not 1 mod 4 decode, to floor(3n/4) bytes. |
| `Base64Url.BytesOfSextets` | src/meridian_storage/object_common/codec/signed.py:216-219 | Unpacking the sextets of some bytes gives the bytes back, and an encoder leaves the unused bits zero. |
| `Base64Url.SextetsOfBytes` | src/meridian_storage/object_common/codec/signed.py:229-238 | Packing and unpacking gives the sextets back exactly when the unused trailing bits are zero. |
| `Base64Url.AlphabetIsTable2` | src/meridian_storage/object_common/codec/signed.py:216-219 | The characters are those of Table 2 of RFC 4648, in order. |
| `Base64Url.SextetsSpellTheBytes` | src/meridian_storage/object_common/codec/signed.py:216-219 | The sextets spell in base 64 the number the bytes spell in base 256, followed by zero bits: none, four, or two. |
| `Base64Url.EncodeDecode` | src/meridian_storage/object_common/codec/signed.py:216-238 | Re-encoding an accepted text gives it back exactly when its unused trailing bits are zero. |
| `Base64Url.TrailingBitsAreTolerated` | src/meridian_storage/object_common/codec/signed.py:216-238 | Every two-character text with a trailing bit set decodes, and re-encoding gives another text, the one without those bits. |
| `Base64Url.TrailingBitsWitness` | src/meridian_storage/object_common/codec/signed.py:216-238 | "AB" decodes to a zero byte, which encodes to "AA". |
| `Base64Url.MintedTokenIsAToken` | src/meridian_storage/object_common/contracts/payloads.py:166-172 | Every token minted from 32 random bytes satisfies the opaque-token grammar. |
| `Base64Url.TokenDeterminesDraw` | src/meridian_storage/object_common/contracts/payloads.py:166 | A minted token is `p_` and the draw, encoded, so different draws mint different tokens. |
| `Base64Url.DrawLengthDecidesTheLastCharacter` | src/meridian_storage/object_common/contracts/payloads.py:166 | Every draw of n bytes mints a token ending in a letter or digit exactly when n is not a multiple of three. |
| `Base64Url.MintedNonceIsAToken` | src/meridian_storage/object_common/codec/signed.py:188 | Every generated nonce satisfies the opaque-token grammar and has 50 characters. |
| `Base64Url.NonceDeterminesDraw` | src/meridian_storage/object_common/codec/signed.py:188 | Different draws of the same length give different nonces. |
| `Signed.MakeIsIdempotent` | src/meridian_storage/object_common/codec/signed.py:81-97 | Constructing a signed reference from its own fields changes nothing. |
| `Signed.WireRoundTrip` | src/meridian_storage/object_common/codec/signed.py:99-146 | A constructed signed reference survives its wire form. |
| `Signed.LogicalRoundTrip` | src/meridian_storage/object_common/codec/signed.py:203-213 | Whatever parses as a logical reference, plain or signed, parses again from its canonical form to the same reference. |
| `Signed.SignatureBound` | src/meridian_storage/object_common/codec/signed.py:216-226 | An encoded signature is accepted exactly when it has between 1 and 1536 bytes. |
| `Signed.SelectsExactly` | src/meridian_storage/object_common/codec/signed.py:83-87 | The operations are accepted exactly when non-empty, without duplicates, and all signable, and are stored as a rearrangement. |
| `Signed.SignsExactly` | src/meridian_storage/object_common/codec/signed.py:176-200 | Signing succeeds exactly on signable input whose signature has 1 to 1536 bytes, and attaches it to the normalized claims and nothing else. |
| `Signed.SignedAsAsked` | src/meridian_storage/object_common/codec/signed.py:176-200 | What was signed has the reference, the operations in name order, the expiry, audience, and nonce it was asked for, and the signer's key and algorithm; its signature is the signer's over its own claims. |
| `Signed.VerifiesExactly` | src/meridian_storage/object_common/codec/signed.py:148-173 | Verification returns the reference exactly when key, algorithm, and audience are those of the reference, the operation is among its own, it is not yet expired, and the verifier accepts its signature; each refusal names a condition that fails. |
| `Signed.GeneratedNonceSigns` | src/meridian_storage/object_common/codec/signed.py:188 | Leaving the nonce out, or empty, signs as the generated nonce does, which is well formed. |
| `Signed.SignThenVerify` | src/meridian_storage/object_common/codec/signed.py:148-200 | A signed reference comes back from the wire unchanged. For any verifier, operation, audience, and time: another key or algorithm is refused, then an operation not given, then another audience than it was signed for, then a time at or past expiry; and the signer itself, accepting its own signatures of 1 to 1536 bytes, returns the original reference. |
| `Signed.SigningForgetsOrder` | src/meridian_storage/object_common/codec/signed.py:176-200 | The order the operations are given in changes nothing that is signed. |
| `Signed.VerifiedMeansSigned` | src/meridian_storage/object_common/codec/signed.py:148-173 | For a signer that accepts only its own signature, a reference that verifies was asked for with its own key, audience, and operation, in time, and is what signing its fields gives, save for the unused trailing bits of the signature text. |
| `Signed.ClaimsDetermine` | src/meridian_storage/object_common/codec/signed.py:99-109 | Two references that claim the same differ in their signature at most. |
| `Signed.AlteredReferencesFail` | src/meridian_storage/object_common/codec/signed.py:148-173 | With canonical bytes and signatures that tell their inputs apart, no altered reference verifies under the signature of one that does. |
| `Requests.SelectReferenceIsIdempotent` | src/meridian_storage/object_common/catalog.py:529-553 | A normalized reference normalizes to itself. |
| `Requests.MergeIsIdempotent` | src/meridian_storage/object_common/catalog.py:461-481 | Merging the put's expectations into the handle is a fixed point. |
| `Requests.DeletesAreExact` | src/meridian_storage/object_common/catalog.py:430-436 | A delete that is accepted names one digest-pinned version by a plain reference in the target resource; a signed reference never permits it. |
| `Requests.RenderFind` | src/meridian_storage/object_common/catalog.py:481-515 | Each argument of the rewritten dictionary is the normalized value of that argument. |
| `Catalog.RequestIsIdempotent` | src/meridian_storage/object_common/catalog.py:388-437 | For every data method the normalized arguments make the same request as the original ones. |
| `Registry.RegistryIsIdempotent` | src/meridian_storage/object_common/catalog.py:355-385 | The arguments left by the registry methods are accepted, left alone, and free of private keys, if and only if the profile parser leaves the canonical profile as it is, without private keys. |
| `Catalog.NormalizationIsIdempotent` | src/meridian_storage/object_common/catalog.py:303-352 | Normalizing the input of a normalized operation gives the same operation: input, resource, requirements, and flags. It always does, except that for a new resource it does if and only if the canonical profile is a fixed point without private keys. |
| `Catalog.UnstableProfileWitness` | src/meridian_storage/object_common/catalog.py:379-385 | For a profile parser that alternates between two forms, a `create_resource` expression that normalizes, but not twice to the same operation. |
| `Catalog.NormalizedInputIsPublic` | src/meridian_storage/object_common/catalog.py:312-326 | No mapping at any depth of a normalized input has a private key, unless the profile parser puts one into the profile of a new resource. |
| `TreeOrder.SameTreeIsPublic` | src/meridian_storage/object_common/_validation.py:133-146 | Values that differ only in the order of dictionary entries, at any depth, have private keys alike. |
| `TreeOrder.PermutedIsSameTree` | src/meridian_storage/object_common/catalog.py:303-312 | A dictionary filled in another order is the same tree. |
| `CatalogOrder.ReorderedArguments` | src/meridian_storage/object_common/catalog.py:303-312 | Arguments that differ only in the order of dictionary entries, at any depth, are the same arguments. |
| `TreeOrder.SignedAgree` | src/meridian_storage/object_common/codec/signed.py:81-146 | A signed reference filled in in another order, its nested reference and its operations too, parses to the same reference or fails alike. |
| `TreeOrder.StringMappingsAgree` | src/meridian_storage/object_common/_validation.py:100-115 | The same mapping in another order is accepted alike and sorted into the same entries. |
| `CatalogOrder.NormalizationForgetsOrder` | src/meridian_storage/object_common/catalog.py:303-352 | Filling any dictionary of the arguments in another order, at any depth, or listing the operations of a signed reference in another order, gives the same operation up to the order of dictionary entries, or fails alike. |
| `CatalogOrder.ArgumentOrderIsForgotten` | src/meridian_storage/object_common/catalog.py:303-352 | In particular any permutation of the argument dictionary normalizes to the same operation or fails alike, whatever the parsers from elsewhere do. |
| `Meaning.NormalizesExactly` | src/meridian_storage/object_common/catalog.py:303-352 | A data-method expression normalizes exactly when it is addressed to the Object Catalog, no mapping in it has a private key, its resource parses, and its arguments are acceptable. |
| `Meaning.PutAcceptedExactly` | src/meridian_storage/object_common/catalog.py:440-522 | A put is accepted exactly when it has its twelve arguments and each is acceptable: a handle that expects no more than the put, bounded names and metadata, objects for contexts, and well-formed intents. |
| `Meaning.SelectedExactly` | src/meridian_storage/object_common/catalog.py:529-563 | A reference may be used exactly when it is signed for the method, or plain with a digest where one is demanded, and is in the target resource; it is the one the argument says. |
| `Meaning.ReadAcceptedExactly` | src/meridian_storage/object_common/catalog.py:395-398 | A get or stat is accepted exactly when its reference may be used. |
| `Meaning.RangeReadAcceptedExactly` | src/meridian_storage/object_common/catalog.py:399-413 | A range read is accepted exactly when its reference may be used and its range is well formed. |
| `Meaning.ListAcceptedExactly` | src/meridian_storage/object_common/catalog.py:414-429 | A listing is accepted exactly within its bounds and for maintenance, and asks for its prefix and limit. |
| `Meaning.DeleteAcceptedExactly` | src/meridian_storage/object_common/catalog.py:430-436 | A delete is accepted exactly when its reference names one version and its reason is null or bounded. |
| `Meaning.PutRequestSays` | src/meridian_storage/object_common/catalog.py:461-522 | Everything a put's request says is in the arguments under its own name. |
| `Meaning.PutInputSays` | src/meridian_storage/object_common/catalog.py:481-515 | The rewritten arguments say the same request, the handle with the put's expectations and the metadata in key order. |
| `Meaning.PutMeans` | src/meridian_storage/object_common/catalog.py:440-526 | A normalized put is idempotent exactly when create-only or given a digest; each guarantee and limit is there exactly when its argument calls for it; it is not read-only. |
| `Meaning.ReadMeans` | src/meridian_storage/object_common/catalog.py:395-398 | A normalized get or stat is read-only and idempotent, requires no limit, and asks for signed-reference verification exactly when its reference is a signed one. |
| `Meaning.RangeMeans` | src/meridian_storage/object_common/catalog.py:399-413 | The same for a range read, whose limit is its suffix or the bytes from start to end, and none when the end is open. |
| `Meaning.ListMeans` | src/meridian_storage/object_common/catalog.py:414-429 | A normalized listing is read-only and idempotent, keeps its arguments, and limits the page to its limit. |
| `Meaning.DeleteMeans` | src/meridian_storage/object_common/catalog.py:430-436 | A normalized delete is idempotent, not read-only, and requires nothing. |
| `Meaning.SchemaAcceptedExactly` | src/meridian_storage/object_common/catalog.py:355-378 | `publish_schema` arguments are accepted exactly when each is well formed. |
| `Meaning.ResourceAcceptedExactly` | src/meridian_storage/object_common/catalog.py:379-385 | `create_resource` arguments are accepted exactly when each is well formed and the profile parses. |
| `Meaning.NewResourceSays` | src/meridian_storage/object_common/catalog.py:379-385 | A new resource keeps its arguments, with the profile in canonical form. |
| `Meaning.RegistryMeans` | src/meridian_storage/object_common/catalog.py:315-320 | A registry operation is addressed to the registry, idempotent, not read-only, and requires nothing. |
| `Meaning.PayloadSays` | src/meridian_storage/object_common/contracts/payloads.py:69-81 | A payload handle has what its dictionary says under each name. |
| `Meaning.RangeSays` | src/meridian_storage/object_common/contracts/ranges.py:98-107 | A byte range has what its dictionary says under each name. |
| `Meaning.RetentionSays` | src/meridian_storage/object_common/immutability/policy.py:71-78 | A retention intent has what its dictionary says under each name. |
| `Meaning.SignedSays` | src/meridian_storage/object_common/codec/signed.py:114-146 | A signed reference has what its dictionary says under each name. |
| `Meaning.ReferenceSays` | contracts/object/meridian-object-expression.v1.schema.json:32-53 | An object reference has what its dictionary says under each name. |
| `Meaning.PayloadParsesExactly` | src/meridian_storage/object_common/contracts/payloads.py:41-81 | A dictionary is a payload handle exactly when it has the five fields, the format, a token, null or a non-negative length, null or a digest, and a boolean. |
| `Meaning.ImmutabilityParsesExactly` | src/meridian_storage/object_common/immutability/policy.py:22-39 | A dictionary is an immutability intent exactly when it says mutable or immutable, and publish-once only with immutable. |
| `Meaning.RetentionParsesExactly` | src/meridian_storage/object_common/immutability/policy.py:50-78 | A dictionary is a retention intent exactly when it has a deadline that is an instant, or a bounded policy, or both, and a boolean. |
| `Meaning.RangeParsesExactly` | src/meridian_storage/object_common/contracts/ranges.py:50-107 | A dictionary is a byte range exactly when it is a positive suffix alone, or a start with an end that is not before it or left open. |
| `Meaning.ReferenceParsesExactly` | contracts/object/meridian-object-expression.v1.schema.json:32-53 | A dictionary is an object reference exactly when it names an object resource, has a bounded id, and has a digest or none. |
| `Meaning.SignedParsesExactly` | src/meridian_storage/object_common/codec/signed.py:70-146 | A dictionary is a signed reference exactly when it has the shape of one, names a pinned object and distinct signable operations, and each of its texts meets its own grammar. |
| `Provider.Arguments.Get` | src/meridian_storage/object_common/catalog.py:461-502 | Reading an argument gives the last value written, or the original one. |
| `Provider.Arguments.Set` | src/meridian_storage/object_common/catalog.py:481-515 | Overwriting an argument changes that entry in its place and no other. |
| `Provider.NormalizeReference` | src/meridian_storage/object_common/catalog.py:529-563 | Succeeds exactly on an acceptable reference, overwrites it with its canonical form and nothing else, and says whether it was signed. |
| `Provider.ValidateRead` | src/meridian_storage/object_common/catalog.py:395-398 | Succeeds exactly on an acceptable get or stat, leaves its canonical arguments, and returns what it requires. |
| `Provider.ValidateReadRange` | src/meridian_storage/object_common/catalog.py:399-413 | The same for a range read, with the requested length as its limit. |
| `Provider.ValidateList` | src/meridian_storage/object_common/catalog.py:414-429 | The same for a listing, whose arguments stay as they are. |
| `Provider.ValidateDelete` | src/meridian_storage/object_common/catalog.py:430-436 | The same for a delete. |
| `Provider.DescribeHandle` | src/meridian_storage/object_common/catalog.py:461-483 | Merges the expectations into the handle and writes the three entries, exactly when they do not contradict each other. |
| `Provider.DescribePut` | src/meridian_storage/object_common/catalog.py:461-500 | Reading each entry of the dictionary between the writes to it, succeeds exactly on a consistent handle and well-formed description of the dictionary as it came, and writes those six entries. |
| `Provider.ApplyPolicy` | src/meridian_storage/object_common/catalog.py:501-522 | Reads the intents from the rewritten dictionary, writes those that are given, and grows the guarantees they and create-only call for. |
| `Provider.PutEffects` | src/meridian_storage/object_common/catalog.py:523-526 | The limits and flag, counted in the rewritten dictionary, are those the request calls for. |
| `Provider.PutWrites` | src/meridian_storage/object_common/catalog.py:481-515 | Every entry a put overwrites is the one its request renders, and it overwrites no other. |
| `Provider.ValidatePut` | src/meridian_storage/object_common/catalog.py:440-526 | Succeeds exactly on an acceptable put, interleaving its reads and writes, leaves its canonical arguments, and returns what it requires. |
| `Provider.ValidateDataArguments` | src/meridian_storage/object_common/catalog.py:388-437 | Dispatches on the method, with the same guarantee for each. |
| `Provider.ValidateRegistryArguments` | src/meridian_storage/object_common/catalog.py:355-385 | Succeeds exactly on acceptable arguments of a registry method and leaves them with the canonical profile. |
| `Provider.Normalize` | src/meridian_storage/object_common/catalog.py:303-352 | The in-place normalizer computes the value-level operation or failure for every expression. |
| `Dictionary.GetIsMap` | tests/_memory_target.py:169 | Looking a key up agrees with the finite map. |
| `Dictionary.PutIsMap` | tests/_memory_target.py:105 | Assigning a key is a map update and keeps the keys distinct. |
| `Dictionary.DelIsMap` | tests/_memory_target.py:160 | Deleting a key removes it from the map and keeps the keys distinct. |
| `Store.LocateRefines` | tests/_memory_target.py:163-174 | A lookup finds exactly what the plain map holds under the id, with the digest when one is given, and returns the bytes and all the metadata of that entry. |
| `Store.ExecuteKeepsValid` | tests/_memory_target.py:69-160 | Every command keeps each entry's digest, length, and reference in agreement with its bytes and key. |
| `Store.ExecuteRefines` | tests/_memory_target.py:69-160 | Every command does to the store what it does to the plain map from keys to bytes and description: media type, user metadata, contexts, and mutability. |
| `Store.RunRefines` | tests/_memory_target.py:45-160 | Over every run of commands the store is valid and refines the plain map. |
| `Store.PinnedRemovalIsExact` | tests/_memory_target.py:156-174 | Removing by a pinned reference removes the one object with that id and digest, or nothing. |
| `Store.ListRefines` | tests/_memory_target.py:143-154 | A listing is the first items, in strictly ascending id order, of exactly the ids the map has under the resource and prefix, each with all the metadata of its entry. |
| `MemoryTarget.NormalizedExecutes` | tests/_memory_target.py:50-67 | The target can run every operation the normalizer produces, and runs the request its expression made. |
| `MemoryTarget.HeldOutcome` | tests/_memory_target.py:110-114 | A transfer from an in-memory handle ends, and succeeds exactly when the data meet what the handle declares, then with that data. |
| `MemoryTarget.Collect` | tests/_memory_target.py:78-84 | A transfer to memory succeeds exactly when the handle delivers a byte string, and returns it with its identity; otherwise it gives the error of the open or of the run. |
| `MemoryTarget.Issue` | tests/_memory_target.py:110-115 | Registers a replayable handle on the data and returns its wire form. |
| `MemoryTarget.IssuePart` | tests/_memory_target.py:128-141 | A range that resolves gives a handle on exactly the slice it cuts; otherwise the failure to resolve, and no handle. |
| `MemoryTarget.MemoryObjectTarget.constructor` | tests/_memory_target.py:44-45 | A new target stands for the empty map. |
| `MemoryTarget.MemoryObjectTarget.Reset` | tests/_memory_target.py:47-48 | A reset leaves the empty map. |
| `MemoryTarget.MemoryObjectTarget.Describe` | tests/_memory_target.py:85-104 | The metadata built from the input is the one the put's request calls for. |
| `MemoryTarget.MemoryObjectTarget.Put` | tests/_memory_target.py:69-106 | Conflicts exactly when create-only meets a used id, before the handle is touched; otherwise opens the handle and succeeds exactly when it delivers, committing those bytes and what the request says about them, and replying with the metadata of that entry; a put that fails gives the transfer's error and leaves the map unchanged. |
| `MemoryTarget.MemoryObjectTarget.Upload` | tests/_memory_target.py:76-106 | The part of a put after the conflict check: the handle is opened, and the store executes one upload or none. |
| `MemoryTarget.MemoryObjectTarget.Lookup` | tests/_memory_target.py:163-174 | Finds the named object exactly when the plain map has it. |
| `MemoryTarget.MemoryObjectTarget.Get` | tests/_memory_target.py:108-115 | Replies, exactly when the object exists, with all its metadata and a new replayable handle on its bytes declaring their length and digest. |
| `MemoryTarget.MemoryObjectTarget.Stat` | tests/_memory_target.py:117-120 | Replies with all the metadata of the entry held, exactly when the object exists. |
| `MemoryTarget.MemoryObjectTarget.ReadRange` | tests/_memory_target.py:122-141 | Replies with the resolved range and a handle on exactly that slice, or with the reason there is none. |
| `MemoryTarget.MemoryObjectTarget.List` | tests/_memory_target.py:143-154 | Replies with the first limit objects of the resource, in id order, whose ids have the prefix. |
| `MemoryTarget.MemoryObjectTarget.Delete` | tests/_memory_target.py:156-161 | Removes exactly the one object with the reference's id and digest, or fails and changes nothing. |
| `MemoryTarget.MemoryObjectTarget.Execute` | tests/_memory_target.py:50-67 | Whatever the operation, the plain map, the registry's handles, and the reply with its handle are those of the method's meaning; a failure leaves the objects unchanged; an operation of no data method is refused. |
| `Conformance.Exchange` | src/meridian_storage/object_common/testing/__init__.py:133-135 | Normalizing an expression and executing the operation gives the answer the data method means; a refused expression, or one the target cannot execute, changes nothing. |
| `Conformance.Receive` | src/meridian_storage/object_common/testing/__init__.py:174-180 | Transferring a replayable in-memory handle in chunks of any legal size gives exactly its data and leaves the handle in place. |
| `Conformance.FetchBytes` | src/meridian_storage/object_common/testing/__init__.py:168-180 | For every get expression, exchanging it and transferring what comes back yields exactly the bytes last committed, and the identity the metadata states. |
| `Conformance.FetchRange` | src/meridian_storage/object_common/testing/__init__.py:182-197 | For every range-read expression, exchanging it and transferring what comes back yields exactly the slice of the committed bytes that the range resolves to. |
| `Conformance.StoreBytes` | src/meridian_storage/object_common/testing/__init__.py:143-232 | Exchanging a put expression whose handle holds data conflicts exactly when create-only meets a used id; otherwise it commits the data, described as the expression's arguments say, exactly when they meet the declared length and digest, and fails for too many bytes, too few, or else for the digest. |
| `Conformance.PutSaysWhatItWasGiven` | tests/_memory_target.py:85-104 | The description committed is what the put expression's arguments say: media type, user metadata in key order, contexts, and mutability, "mutable" without an intent. |
| `Conformance.ReadOnlyChangesNothing` | src/meridian_storage/object_common/catalog.py:63-90 | Exchanging an expression whose operation is read-only leaves the plain map as it was. |
| `Multipart.PlanIsMinimal` | src/meridian_storage/object_common/contracts/multipart.py:35-46 | A plan is accepted exactly when the part size is within limits and the permitted parts can hold the total; the count is the least positive one that can; each failure has its own cause. |
| `Multipart.PlanTiles` | src/meridian_storage/object_common/contracts/multipart.py:43-46 | Cutting the object into that many parts tiles it: each byte in exactly one part, only the last short, an empty one only for an empty object. |
| `Multipart.CompletesExactly` | src/meridian_storage/object_common/contracts/multipart.py:124-132 | A part list is accepted exactly when non-empty, numbered by a permutation of 1..n, and as long as the object; the stored parts are its arrangement by number; each failure has its own cause. |
| `Multipart.CompletionForgetsOrder` | src/meridian_storage/object_common/contracts/multipart.py:124-132 | The order parts arrive in decides neither acceptance nor what is stored. |
| `Multipart.CarriedOutPlanCompletes` | src/meridian_storage/object_common/contracts/multipart.py:35-132 | Any plan carried out, its parts arriving in any order, is accepted and stored in order. |
| `Ranges.ResolveIsIntersection` | src/meridian_storage/object_common/contracts/ranges.py:77-88 | Resolution succeeds exactly when the object has a requested byte, and the resolved interval is exactly the requested bytes it has. |
| `Ranges.ResolvedBytes` | src/meridian_storage/object_common/contracts/ranges.py:77-88 | The resolved bytes are the last ones for a suffix, and otherwise those from start to end or to the last. |
| `Ranges.Unresolved` | src/meridian_storage/object_common/contracts/ranges.py:77-88 | A range does not resolve exactly for an empty object or a start at or past its end. |
| `Ranges.RequestedLengthIsLongest` | src/meridian_storage/object_common/contracts/ranges.py:68-75 | The requested length is the longest slice the range resolves to over all objects; without one there are slices of every length. |
| `Ranges.RangeRoundTrip` | src/meridian_storage/object_common/contracts/ranges.py:90-107 | A valid range survives its wire form. |
| `PutState.PutStateMachine.constructor` | src/meridian_storage/object_common/contracts/state.py:38-41 | A new machine has the history of the empty run. |
| `PutState.PutStateMachine.Transition` | src/meridian_storage/object_common/contracts/state.py:53-63 | Moves exactly when the table permits it; a rejected call changes nothing and says why. |
| `PutState.PutStateMachine.Fail` | src/meridian_storage/object_common/contracts/state.py:65-67 | Ends in ORPHAN_CANDIDATE when a physical commit is possible and in ABORTED otherwise, exactly when the table permits it. |
| `PutState.StatesAreNamed` | src/meridian_storage/object_common/contracts/state.py:12-18 | The six states have the names given. |
| `PutState.ReachableHistories` | src/meridian_storage/object_common/contracts/state.py:21-67 | Over every run of calls, rejected ones included, exactly nine histories are reachable. |
| `PutState.EveryRun` | src/meridian_storage/object_common/contracts/state.py:21-67 | Histories have at most four states and no duplicate, reach COMMITTED one way only, and never have ORPHAN_CANDIDATE directly after NEW. |
| `PutState.TerminalStatesAbsorb` | src/meridian_storage/object_common/contracts/state.py:29-31 | After a terminal state no call changes the history. |

## Left out

- Payloads.Transfer: requires that the run it meets leaves the loop; when it does not, the source does not return either. A `cancelled` callback answers true or false and does not raise, and a factory stream's `close` does not raise.
- Payloads.PayloadRegistry.Open: its two locked sections run one after the other here; `RegistryProtocol` interleaves them between threads.
- MemoryTarget.MemoryObjectTarget.Put: requires that the transfer it performs ends, as the transfer does.
- MemoryTarget.MemoryObjectTarget.Execute: takes data-method operations in normal form, which is what the normalizer produces.
- CatalogOrder.NormalizationForgetsOrder: requires that what comes from elsewhere, the `resource` parser, the name checks, and the profile parser, does not tell the two arguments apart; they are not part of this model.
- Signed.SignThenVerify: takes the verification time as an integer instant, and expiry as the instant the platform's timestamp parser gives.
- Error messages, and the distinction between the exception kinds that the normalizer turns into one invalid-request error.
- Hashing, HMAC, and random draws: parameters. Nothing is claimed about collisions, unforgeability, or the chance that two tokens coincide.
- `ResourceRef.parse`, `SchemaRef`, `profile_from_mapping`, `ObjectMetadata`, and timestamp formatting: released elsewhere; the model keeps the fields this library uses. `ObjectReference` follows the published JSON schema. Canonical JSON bytes are an uninterpreted function.
- Case folding beyond ASCII is an uninterpreted function of one character; UTF-8 lengths are computed per character, without unpaired surrogates. Byte strings as JSON values are not modelled.
- Operation versions and the catalog name of an operation, which normalization copies from the manifest; capability negotiation.
- Store immutability and list pagination: the target enforces the one and offers the other in no operation, so nothing is claimed.
- Surface builders, `MultipartSession`, the conformance report, document loaders, and the wire form of metadata: single-branch conversions.
