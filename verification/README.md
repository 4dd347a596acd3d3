# Verification of ClearSign's signing core and its controllers

This project models, in Dafny, the parts of the repository whose guarantees are hardest to see from
the code, and proves them for every input, every run or every interleaving.

- **The v4 wire format** (`Model`, `Wire`, `Codec`, `CodecLaws`). Twelve action shapes with nested
  rows, optional fields and bounded lengths. Encoders push into a writer over a fixed buffer and the
  parser advances a reader; both are proved to follow one layout, and the layout to be canonical.
  `Schema` gives that layout again as flat tables of fields, numbers by place value, and `Acceptance`
  and `Refusals` say which requests are acceptable and what each other one is refused for.
- **Printing and reading numbers and keys** (`Io`, `Base58`, `Decimal`). Cursors over arrays, digit
  loops, the big-number base58 loop, and the API's decimal reader, which is the printer's inverse.
- **What is hashed** (`Payload`, `Hashing`). The bytes fed to SHA-256 by signers and by executors, given
  again as tables of fields in `PayloadSchema`.
- **What signers read** (`Documents`, `DocumentLaws`, `Rendering`). The full and compact documents of a
  single transfer, what two equal documents must agree on, and (`Binding`) what a document leaves open
  about the payload it stands for. `DocumentSchema` gives them line by line, and `Vector` the bytes and
  the document of the repository's normative transfer.
- **Controllers** (`RateLimit`, `ExecuteOnce`, `Registry`). A bounded, pruning rate limiter against an
  ideal one; the executor's locked section under every interleaving of threads; the managed template
  registry over every run of publications and revocations.
- **Templates, accounts and dates** (`Templates`, `Accounts`, `Calendar`). Two template scanners that
  must agree, the offset walk over encoded parameters, account tails in two layouts, and the
  civil-date arithmetic. `TemplateLaws` says which templates and parameter texts are accepted and what
  they print, `AccountSchema` what the account layouts are as tables.

`Base` holds results, options, machine integers, powers and little-endian words.

Code that changes state in the repository is a class or a method with loops here, proved equal to a
specification function; the laws are lemmas about those functions. Every specification function is in
turn tied to something that does not mention it: a table of fields, digits by place value, a list of
lines, a history of calls. SHA-256 is a function parameter:
every statement is about the bytes it is given, so none assumes that it has no collisions. UTF-8,
base58 and hexadecimal decoding of parameter texts, the operations an executor runs and the clock are
parameters too.

Some places where the code does something that a reader might not expect are stated as they are:

- An artifact of `None` is not found in the executor's cache again, so its key executes again
  (`ExecuteOnce.NoneRunsAgain`); the tables overlap exactly for uncertain keys with such a past
  (`ExecuteOnce.TablesAgree`).
- The rate limiter reads the clock before it takes its lock, so requests can overtake each other. A
  request timed before a pruning that went ahead of it may be granted against its limit
  (`RateLimit.LateIsGranted`), and nothing then bounds what it is granted (`RateLimit.NoBoundOvertaken`);
  the table's bounds hold in any order (`RateLimit.ReachableBounded`).
- An intent account in the old layout with at least four bytes behind it may be read as the current
  layout (`Accounts.LegacyDecodesIff`, with a concrete account in `Accounts.LegacyMisread`).
- A transfer whose asset is a raw key puts its 32 bytes into the document unprinted
  (`DocumentLaws.ReviewPrintsIff`, `Binding.ZeroKeyUnprintable`).
- A transfer without a reason reads like one whose reason is `Not provided`
  (`DocumentLaws.FullDocumentsAgree`).
- One document can stand for several payloads (`Binding.DocumentAndContent`). Hashed but not shown are
  the scale of an amount (`Binding.RescaledShares`), the bytes of a textual asset
  (`Binding.OtherAssetShares`), whether a recipient is a key, its spelling or a text that is hashed as
  its digest (`Binding.SpelledKeyShares`, `Binding.DigestShares`), and whether the bytes of an asset are
  a key or hashed as their digest (`Binding.DigestAssetShares`).

`dafny verify dfyconfig.toml` checks the whole project.

## Model

| member | source | states |
|---|---|---|
| `CodecLaws.ParseIffSerialized` | crates/clear-msig-signing/src/codec.rs:159-472 | for every byte string and request: parsing returns the request if and only if it is acceptable, the bytes are its layout, and they are at most 2048; one byte string per intent, over all 12 shapes |
| `CodecLaws.EncodeIffSerialized` | crates/clear-msig-signing/src/codec.rs:3-157 | for every request and buffer size: encoding succeeds if and only if every field check passes and the layout fits, and then writes that layout |
| `Schema.IntentBytes` | docs/signing/intent-schema.md:19-37 | what is parsed or encoded is the table of fields of the format, each spelled by place value, least significant byte first: byte 12 + i is the proposal index over 256^i, modulo 256, and every fixed field stands at its offset, the amount of a single transfer included |
| `Schema.SerializedAsTable` | crates/clear-msig-signing/src/codec.rs:3-157 | the layout of every one of the 12 shapes is the spelling of one flat table of bytes, numbers, raw keys, sized texts and rows |
| `Schema.FixedOffsets` | crates/clear-msig-signing/src/lib.rs:215-236 | magic, version, codes and common fields stand at fixed offsets of any layout, numbers byte by byte |
| `Schema.RowOffsets` | crates/clear-msig-signing/src/lib.rs:238-246 | inside a row, wherever it stands, encodings, lengths, texts, the sixteen amount bytes and the decimals stand where the format puts them |
| `Base.LEAt` | crates/clear-msig-signing/src/io.rs:96-110 | byte i of a word is its value over 256^i, modulo 256 |
| `Base.FromLEIsSum` | crates/clear-msig-signing/src/io.rs:29-53 | reading bytes gives the sum of each byte times 256 to the power of its position |
| `Acceptance.AcceptedIff` | crates/clear-msig-signing/src/codec.rs:3-157 | the checks of encoders and parser pass if and only if every field is within the limits listed for its shape, in plain terms of bytes and bounds |
| `Acceptance.CodesInOrder` | crates/clear-msig-signing/src/model.rs:4-160 | actions, networks, encodings and profiles have the listed codes, each network the listed chain and name |
| `Acceptance.HeaderRefused` | crates/clear-msig-signing/src/codec.rs:163-172 | for every byte string: the header is refused for its first fault, each with its own error, or read as the listed codes |
| `Acceptance.ParseRefused` | crates/clear-msig-signing/src/codec.rs:159-172 | an intent that is too long or has a bad header is refused with that error, whatever follows |
| `Acceptance.TrailingRefused` | crates/clear-msig-signing/src/codec.rs:463-465 | anything behind an accepted intent is refused as trailing bytes |
| `Acceptance.EncodeRefused` | crates/clear-msig-signing/src/codec.rs:3-157 | an acceptable request fails to encode only for want of room, and exactly when its layout does not fit |
| `Refusals.EncodeAnswer` | crates/clear-msig-signing/src/codec.rs:3-157 | for every request: an encoder answers the first failing field check of its list whatever the buffer, and with room for the layout the first failing check of all, rows included, or the layout |
| `Refusals.ParseAnswer` | crates/clear-msig-signing/src/codec.rs:159-472 | for the layout of any request, acceptable or not: the parser answers that it is too long, or the first failing check in the order in which it meets them, or the request |
| `Refusals.UnknownCodes` | crates/clear-msig-signing/src/lib.rs:248-252 | codes that stand for nothing are refused as they are read: encodings of a row, the tag of an estimate, actions without a form |
| `CodecLaws.RoundTrip` | crates/clear-msig-signing/src/codec.rs:3-472 | what an encoder accepts, in at most 2048 bytes, parses back to the same common fields, body, rows and reason |
| `CodecLaws.Canonical` | crates/clear-msig-signing/src/codec.rs:159-472 | what the parser accepts re-encodes, with the matching encoder, to the very bytes it was parsed from |
| `CodecLaws.ParseInjective` | crates/clear-msig-signing/src/codec.rs:159-472 | two byte strings that parse to the same intent are the same |
| `CodecLaws.IntentHolds` | crates/clear-msig-signing/src/codec.rs:170-472 | the parsed intent holds the common fields, body, counts, keys and reason of the request it was laid out from, and the bytes themselves |
| `CodecLaws.RowlessFits` | crates/clear-msig-signing/src/codec.rs:3-23 | shapes without row lists never exceed 1384 bytes, and single transfers never 839, so the 2048 limit always holds for them |
| `CodecLaws.RowsExact` | crates/clear-msig-signing/src/lib.rs:191-205 | iterating over encoded acceptable rows yields all of them, in order, without stopping early |
| `CodecLaws.ParsedSlicesDecode` | crates/clear-msig-signing/src/lib.rs:173-205 | the row slice a parsed batch or escrow return keeps yields exactly `row_count` rows, those that were parsed, and they re-encode to that slice; the kept fiat slice of a parsed send decodes with nothing left over |
| `Vector.CanonicalBytes` | tests/fixtures/clearsign-v4-transfer.txt:1 | the normative transfer, for any action id, nonce and policy: its canonical bytes, byte for byte, and that they parse back |
| `Wire.Parse` | crates/clear-msig-signing/src/codec.rs:159-472 | whatever parses is an acceptable request laid out byte for byte as given, within 2048 bytes |
| `Wire.ParseBody` | crates/clear-msig-signing/src/codec.rs:170-455 | the body read for a kind is of that kind, passes its field checks, and the bytes taken are exactly its layout |
| `Wire.ParseRow` | crates/clear-msig-signing/src/lib.rs:248-269 | a row that reads passes validation and the bytes taken are exactly its layout |
| `Wire.ParseFiat` | crates/clear-msig-signing/src/fiat.rs:19-34 | an estimate that reads is valid and the bytes taken are exactly its layout |
| `Wire.ParseRecurring` | crates/clear-msig-signing/src/codec.rs:404-455 | the commitment of a schedule is on the wire only for token payments, and is zero otherwise |
| `CodecLaws.BodyBack` | crates/clear-msig-signing/src/codec.rs:170-455 | for each of the 12 shapes, reading a laid-out acceptable body gives it back with the bytes behind it |
| `CodecLaws.RecurringBack` | crates/clear-msig-signing/src/authority_codec.rs:111-147 | a schedule is read back with its conditional commitment, which sits before the terms |
| `Codec.EncodeInto` | crates/clear-msig-signing/src/codec.rs:3-157 | pushing a request into the buffer, rows checked between writes, succeeds or reports the first error exactly as the encoder function says, and leaves exactly the layout |
| `Codec.ParseIntent` | crates/clear-msig-signing/src/codec.rs:159-472 | advancing the reader through a byte string returns the slices and fields of what it parses to, or its first error |
| `Codec.CollectRows` | crates/clear-msig-signing/src/lib.rs:191-205 | the row iterator stops at the first row that does not decode and otherwise yields as many as counted |
| `Codec.WriteCommon` | crates/clear-msig-signing/src/lib.rs:215-236 | magic, version, codes and common fields are appended in layout order, or the buffer is too small |
| `Codec.WriteRow` | crates/clear-msig-signing/src/lib.rs:238-246 | one transfer row is appended in layout order, or the buffer is too small; a field too long for its prefix is refused |
| `Codec.WriteFiat` | crates/clear-msig-signing/src/fiat.rs:3-17 | an optional estimate is appended behind its tag; a text too long for its prefix is refused |
| `Codec.WriteEscrowReturn` | crates/clear-msig-signing/src/codec.rs:66-85 | escrow fields, checked rows and commitment are appended, or the first failing check or write is reported |
| `Codec.WriteRecurring` | crates/clear-msig-signing/src/authority_codec.rs:111-147 | a schedule is appended, its commitment only for token payments |
| `Codec.ReadRow` | crates/clear-msig-signing/src/lib.rs:248-269 | a row is read and checked, and the reader stands behind it |
| `Codec.ReadFiatBytes` | crates/clear-msig-signing/src/fiat.rs:36-41 | the slice kept for an estimate is exactly the bytes it was read from |
| `Codec.ReadAction` | crates/clear-msig-signing/src/codec.rs:170-455 | the branch for each kind reads the fields of that kind and reports its own errors |
| `Model.ActionKind.FromCode` | crates/clear-msig-signing/src/model.rs:25-51 | codes and kinds are in one-to-one correspondence; any other code is refused |
| `Model.Network.FromCode` | crates/clear-msig-signing/src/model.rs:97-111 | codes and networks are in one-to-one correspondence; any other code is refused |
| `Model.IdentityEncoding.FromCode` | crates/clear-msig-signing/src/model.rs:144-153 | codes and encodings are in one-to-one correspondence; any other code is refused |
| `Model.DeviceProfile.FromCode` | crates/clear-msig-signing/src/model.rs:60-68 | codes and profiles are in one-to-one correspondence; any other code is refused |
| `Model.ValidateTexts` | crates/clear-msig-signing/src/authority_codec.rs:3-40 | the loop over agent texts passes if and only if every one is visible ASCII of 1 to 96 bytes |
| `Io.Reader.Take` | crates/clear-msig-signing/src/io.rs:16-23 | the first bytes are returned and skipped, or nothing moves |
| `Io.Reader.Bytes` | crates/clear-msig-signing/src/io.rs:59-66 | a length-prefixed field within the limit is returned and skipped |
| `Io.Writer.Push` | crates/clear-msig-signing/src/io.rs:79-90 | the bytes are appended if they fit; otherwise neither cursor nor buffer changes |
| `Io.Writer.Bytes` | crates/clear-msig-signing/src/io.rs:112-116 | a field is appended behind its 16-bit length; longer ones are refused before any write |
| `Io.Writer.DecimalU128` | crates/clear-msig-signing/src/io.rs:118-131 | the digit loop appends the decimal text of any u128, within its 39 places |
| `Io.Writer.SignedDecimalI64` | crates/clear-msig-signing/src/io.rs:133-138 | sign and magnitude of any i64, the smallest included |
| `Io.Writer.Amount` | crates/clear-msig-signing/src/io.rs:140-166 | the two digit loops append the exact quotient by the power of ten, without trailing zeros; 39 decimals and more are refused |
| `Io.FractionDigits` | crates/clear-msig-signing/src/io.rs:150-165 | trimming the filled places leaves the fraction digits without trailing zeros |
| `Io.FillDigits` | crates/clear-msig-signing/src/io.rs:150-158 | filling 36 places from the right gives the zero-padded digits of the fraction |
| `Io.Writer.Hex` | crates/clear-msig-signing/src/io.rs:168-174 | two lower-case letters a byte, in order |
| `DocumentSchema.HexAt` | crates/clear-msig-signing/src/io.rs:168-174 | letters 2i and 2i+1 are those of byte i over 16 and modulo 16 in 0123456789abcdef |
| `Io.Writer.Identity` | crates/clear-msig-signing/src/io.rs:176-188 | base58 for keys, the bytes themselves otherwise |
| `Io.Writer.Pubkeys` | crates/clear-msig-signing/src/io.rs:190-203 | the key loop appends every key of a packed list in base58, separated by commas; a list of the wrong length is refused unwritten |
| `DocumentLaws.KeyListInjective` | crates/clear-msig-signing/src/io.rs:190-203 | two printed key lists that are equal list the same keys |
| `DocumentSchema.KeysInOrder` | crates/clear-msig-signing/src/io.rs:190-203 | a printed list is its first key, a comma and a space if more follow, and the rest |
| `Base58.EncodeBase58` | crates/clear-msig-signing/src/io.rs:206-244 | the division loops print the base58 text of the big-endian number behind one `1` per leading zero byte, and fail exactly when 64 digits or the buffer do not suffice |
| `Base58.ReadsAsNumber` | crates/clear-msig-signing/src/io.rs:206-244 | every letter is in the alphabet, and reading the letters by their rank in base 58 gives the number whose base-256 places are the input bytes |
| `Base58.LetterOfRank` | crates/clear-msig-signing/src/io.rs:207 | digit d is the letter with d letters of the alphabet below it |
| `Base58.LetterIff` | crates/clear-msig-signing/src/io.rs:207 | the letters are the ASCII digits and letters other than 0, O, I and l, in the order of their bytes |
| `Base58.ToDigits` | crates/clear-msig-signing/src/io.rs:211-228 | after each byte the digits hold the number read so far; more than 64 are refused |
| `Base58.TrimDigits` | crates/clear-msig-signing/src/io.rs:229-231 | zero digits at the top are dropped, down to one, without changing the number |
| `Base58.MulAdd` | crates/clear-msig-signing/src/io.rs:216-228 | one pass over the digits multiplies the held number by 256 and adds the byte, with digits below 58 and the carry below 256 |
| `Base58.KeyFits` | crates/clear-msig-signing/src/io.rs:206-244 | every 32-byte key fits 44 letters, from 256^32 <= 58^44 |
| `Base58.LeadingOnes` | crates/clear-msig-signing/src/io.rs:206-244 | one `1` per leading zero byte, then a different letter, unless all bytes are zero, when there is one `1` more |
| `Base58.Injective` | crates/clear-msig-signing/src/io.rs:206-244 | byte strings of any lengths with the same text are equal |
| `Decimal.PrintThenRead` | apps/api/src/clearsign/payload.rs:287-317 | reading a printed amount with the same decimals gives the raw amount back, for every u128 |
| `Decimal.ReadThenPrint` | apps/api/src/clearsign/payload.rs:250-317 | an accepted decimal that converts to a raw amount prints back as its normalised text |
| `Decimal.NormalizeIff` | apps/api/src/clearsign/payload.rs:250-276 | a decimal is accepted if and only if its trimmed text is digits with at most one dot and a non-empty whole part; it is refused as not positive exactly when empty or signed |
| `Decimal.NormalizePrints` | apps/api/src/clearsign/payload.rs:250-276 | the normalised text is the amount text of all the digits read as one number, over ten to the number of fraction digits: the same rational number |
| `Decimal.ReadsExactly` | apps/api/src/clearsign/payload.rs:250-317 | a written decimal converts to a raw amount if and only if raw times 10^places is the number of its digits times 10^decimals; nothing is rounded |
| `Decimal.ReadsRefused` | apps/api/src/clearsign/payload.rs:287-317 | too many places is answered exactly when no raw amount is equal to the decimal, too large exactly when that amount exceeds a u128 |
| `Decimal.ValueIsPlaced` | apps/api/src/clearsign/payload.rs:300-316 | the value read digit by digit is the sum of each digit times its power of ten |
| `Decimal.TrimExact` | apps/api/src/clearsign/payload.rs:251 | trimming takes white space and nothing else off both ends, and leaves none there |
| `Decimal.NormalizeIdempotent` | apps/api/src/clearsign/payload.rs:250-276 | normalising a normalised decimal changes nothing |
| `Decimal.AmountTextIff` | crates/clear-msig-signing/src/io.rs:140-166 | two amounts, whatever their decimals, print alike if and only if they are the same rational number |
| `Decimal.AmountMeans` | crates/clear-msig-signing/src/io.rs:140-166 | a printed amount is a whole part without leading zeros and a fraction without trailing ones, whose digits are the same rational number as the raw amount over its power of ten |
| `Decimal.LeverageIff` | apps/api/src/clearsign/payload.rs:220-244 | leverage, white space and multiplier sign aside, is accepted if and only if its normalised text reads as an amount with two decimals within a u32, with that value, and prints back |
| `Decimal.LeverageReads` | apps/api/src/clearsign/payload.rs:220-244 | leverage reads as x if and only if its text, white space and multiplier sign aside, is a decimal with exactly the value x over 100 |
| `Decimal.WordsExact` | apps/api/src/clearsign/payload.rs:246-248 | splitting at white space loses nothing but the gaps: words and gaps woven together are the text |
| `Decimal.JoinedExact` | apps/api/src/clearsign/payload.rs:246-248 | joining puts exactly one space between words |
| `Decimal.DropEndExact` | apps/api/src/clearsign/payload.rs:222-224 | dropping a character from the end drops all of it and nothing else |
| `Decimal.SignIsOptional` | apps/api/src/clearsign/payload.rs:220-224 | an `x` or `X` behind a number makes no difference |
| `Payload.PreimageInjective` | crates/clear-msig-signing/src/hashing.rs:68-196 | equal payload preimages have equal kinds and equal committed content, the optional commitment included, wherever it sits |
| `Payload.PayloadIffContent` | crates/clear-msig-signing/src/hashing.rs:68-196 | for accepted requests: equal preimages if and only if equal kind and content; estimate, reason, titles and display fields are no part of it |
| `Payload.InnerCommitmentEqual` | crates/clear-msig-signing/src/hashing.rs:370-375 | a commitment before terms of fixed length is told apart from its absence, and what follows it is the same |
| `Payload.EnvelopeInjective` | crates/clear-msig-signing/src/hashing.rs:223-245 | equal envelope preimages have equal fields |
| `Payload.EvidenceInjective` | crates/clear-msig-signing/src/hashing.rs:274-282 | equal evidence preimages list the same parts |
| `PayloadSchema.PayloadAsTable` | crates/clear-msig-signing/src/hashing.rs:68-196 | for every accepted request the payload preimage is the spelling of a flat table of fields: domain, kind, and the content in the order of its shape |
| `PayloadSchema.EnvelopeAsTable` | crates/clear-msig-signing/src/hashing.rs:223-245 | the envelope preimage is the spelling of its table of fields |
| `PayloadSchema.EvidenceAsTable` | crates/clear-msig-signing/src/hashing.rs:274-282 | the evidence preimage is domain, count and every part behind its length |
| `Vector.PayloadPreimage` | tests/fixtures/clearsign-v4-transfer.txt:2 | the normative transfer: its payload preimage, byte for byte |
| `Hashing.PayloadHash` | crates/clear-msig-signing/src/hashing.rs:68-196 | feeding the parsed action step by step, rows through the iterator, hashes exactly the preimage of its content |
| `Hashing.SignerAndExecutor` | crates/clear-msig-signing/src/hashing.rs:257-368 | for every parsed transfer, release, return and schedule the hash computed from committed bytes equals the signed payload hash |
| `Hashing.CommittedTransferHash` | crates/clear-msig-signing/src/hashing.rs:257-269 | the executor feeds the preimage of the content it names |
| `Hashing.CommittedReleaseHash` | crates/clear-msig-signing/src/hashing.rs:304-320 | the executor feeds the preimage of the content it names |
| `Hashing.CommittedReturnHash` | crates/clear-msig-signing/src/hashing.rs:322-340 | the row loop feeds the preimage of the content it names |
| `Hashing.CommittedRecurringHash` | crates/clear-msig-signing/src/hashing.rs:354-368 | the executor feeds the preimage of the content it names |
| `Hashing.ExecutionCommitment` | crates/clear-msig-signing/src/hashing.rs:274-282 | the part loop hashes the domain, the count and every part |
| `Hashing.SplEscrowReturnCommitment` | crates/clear-msig-signing/src/hashing.rs:284-302 | the token variant hashes the same bytes as the general one on its part list |
| `Hashing.EnvelopeHash` | crates/clear-msig-signing/src/hashing.rs:223-245 | a valid wallet name and approval count give the hash of the envelope preimage, others the error |
| `Hashing.Hasher.UpdateCommitment` | crates/clear-msig-signing/src/hashing.rs:370-375 | the zero commitment feeds nothing, any other its tag and bytes |
| `Hashing.Hasher.UpdateIdentity` | crates/clear-msig-signing/src/hashing.rs:377-385 | remote identities feed their digest, local ones their bytes |
| `DocumentLaws.FullDocumentsAgree` | crates/clear-msig-signing/src/full.rs:3-46 | full documents of two accepted transfers are equal if and only if wallet, rational amount, displayed asset, asset id, recipient text, network name, commitment, approvals, policy, estimate and reason agree, no reason counting as `Not provided`; raw keys included |
| `DocumentLaws.CompactDocumentsAgree` | crates/clear-msig-signing/src/compact.rs:3-27 | compact documents likewise, with proposal index and expiry in place of estimate and reason |
| `DocumentLaws.KeyOrText` | crates/clear-msig-signing/src/full.rs:25-32 | the 32 raw bytes of a key end where a text of another length could not, since what follows an asset id opens no second such line within 32 bytes |
| `DocumentLaws.ReviewPrintsIff` | crates/clear-msig-signing/src/full.rs:11-46 | both documents are visible ASCII and newlines if and only if the asset is textual or its key bytes happen to be |
| `DocumentSchema.FullAsLines` | crates/clear-msig-signing/src/full.rs:3-46 | the full document of an accepted transfer is a list of lines, label by label, with the optional estimate and reason lines present exactly when given |
| `DocumentSchema.CompactAsLines` | crates/clear-msig-signing/src/compact.rs:3-27 | the compact document likewise |
| `DocumentSchema.RendersLines` | crates/clear-msig-signing/src/lib.rs:54-63 | rendering gives the lines of the profile of the request if the buffer holds them, within the limit of that profile, and fails only for want of room |
| `Vector.FullDocument` | tests/fixtures/clearsign-v4-transfer.txt:5-29 | the normative transfer: its document is the listed lines |
| `Binding.ZeroKeyUnprintable` | crates/clear-msig-signing/src/full.rs:27-30 | any acceptable transfer with its asset replaced by the all-zero key stays acceptable, and neither of its documents is plain text |
| `Binding.DocumentAndContent` | crates/clear-msig-signing/src/hashing.rs:68-76 | two accepted transfers share full document and payload content if and only if they show the same and agree on scale and on the bytes hashed for recipient and asset |
| `Binding.CompactAndContent` | crates/clear-msig-signing/src/hashing.rs:68-76 | the same for compact documents |
| `Binding.RecipientsReadAlike` | crates/clear-msig-signing/src/hashing.rs:377-385 | recipients that read alike, neither a digest, are the same hashed bytes if and only if both are keys or both text |
| `Binding.KeyIsNotItsText` | crates/clear-msig-signing/src/io.rs:206-244 | no 32-byte key is its own base58 text |
| `Binding.RescaledShares` | crates/clear-msig-signing/src/full.rs:11-24 | a transfer and the one with ten times the raw amount and one more decimal have the same full and compact documents and two payloads |
| `Binding.OtherAssetShares` | crates/clear-msig-signing/src/full.rs:11-30 | textual assets behind one displayed name have the same documents and two payloads |
| `Binding.SpelledKeyShares` | crates/clear-msig-signing/src/full.rs:25-26 | a recipient key and the text that spells it have the same documents and two payloads |
| `Binding.DigestShares` | crates/clear-msig-signing/src/hashing.rs:377-385 | a recipient given as key or text and the same text given for its digest have the same documents and two payloads, unless the digest is the recipient itself |
| `Binding.DigestAssetShares` | crates/clear-msig-signing/src/hashing.rs:377-385 | an asset key of 32 visible bytes and the same bytes given for their digest have the same documents and two payloads, unless they are their own digest |
| `Rendering.DocumentsFit` | crates/clear-msig-signing/src/lib.rs:52-63 | the document of an acceptable transfer never exceeds its profile limit, 1792 or 1024 bytes |
| `Rendering.RenderDocument` | crates/clear-msig-signing/src/lib.rs:54-63 | the pushes leave exactly the document of the profile in the buffer, or report a bad wallet name, a short buffer or a long message |
| `Rendering.RenderFull` | crates/clear-msig-signing/src/full.rs:3-46 | the full renderer writes the full text |
| `Rendering.RenderCompact` | crates/clear-msig-signing/src/compact.rs:3-27 | the compact renderer writes the compact text |
| `Rendering.WriteReviewFooter` | crates/clear-msig-signing/src/lib.rs:96-163 | the footer of a send: approvals in singular or plural, policy commitment, profile, risk lines and purpose |
| `Rendering.WriteCompactFooter` | crates/clear-msig-signing/src/compact.rs:219-234 | network, wallet, approvals, proposal, expiry, policy and profile lines |
| `Rendering.ReadEstimate` | crates/clear-msig-signing/src/fiat.rs:43-52 | the kept slice decodes to an estimate, or is refused if bytes remain |
| `RateLimit.RateLimiter.constructor` | apps/api/src/rate_limit.rs:29-40 | a window below one second is raised to one; the table starts empty |
| `RateLimit.RateLimiter.CheckAt` | apps/api/src/rate_limit.rs:46-90 | pruning, admission, window reset and counting change the table and answer as one step of the limiter function |
| `RateLimit.RefinesIdeal` | apps/api/src/rate_limit.rs:46-90 | over any run in which no request is timed before one that pruned ahead of it, each request gets the answer of a limiter that never prunes and knows only that key's history, except when its key is absent from a full table; bad keys change nothing |
| `RateLimit.OthersUntouched` | apps/api/src/rate_limit.rs:46-90 | a request, refused or not, leaves what any other key will be told as it was |
| `RateLimit.ReachableBounded` | apps/api/src/rate_limit.rs:52-89 | in every reachable state at most 10000 entries, none counting above the limit |
| `RateLimit.Take` | apps/api/src/rate_limit.rs:71-89 | a granted request leaves a count between one and the limit |
| `RateLimit.StepExplained` | apps/api/src/rate_limit.rs:46-90 | for every state and usable key, in plain terms: what is pruned, when a new key is refused, whether the window runs on or starts again, what is counted, and how long to wait |
| `RateLimit.WaitIsExact` | apps/api/src/rate_limit.rs:78-85 | a refused key that asks again after the time it was told is granted, and before it is refused; the time is positive and at most a window |
| `RateLimit.BadKeyIff` | apps/api/src/rate_limit.rs:47-50 | a key is refused as bad if and only if it is blank or longer than 256 bytes of UTF-8 when trimmed, and then nothing changes |
| `RateLimit.TwiceTheLimit` | apps/api/src/rate_limit.rs:52-89 | under that condition, and with a key's own requests in time order, it is granted less than twice its limit in any half-open interval one window long |
| `RateLimit.TwiceIsMet` | apps/api/src/rate_limit.rs:52-89 | for every window and limit, a run in time order meets that bound |
| `RateLimit.ThriceTheLimit` | apps/api/src/rate_limit.rs:42-89 | with only the condition on prunings, and no request of the key before the limiter was made, it is granted at most three times its limit, less two |
| `RateLimit.ThriceIsMet` | apps/api/src/rate_limit.rs:42-89 | for every window and limit, a run in which a key's requests overtake each other meets that bound |
| `RateLimit.NoBoundOvertaken` | apps/api/src/rate_limit.rs:42-89 | without the condition on prunings no bound is left: a key in time order can be granted any number of times in one window |
| `RateLimit.InOrderSuffices` | apps/api/src/rate_limit.rs:42-51 | runs in time order meet both conditions |
| `RateLimit.LateAnswerIff` | apps/api/src/rate_limit.rs:46-90 | at the first request that may be out of order, the answer is the ideal one if and only if the key's bucket is still there or its window has ended or is not used up |
| `RateLimit.LateIsGranted` | apps/api/src/rate_limit.rs:42-89 | a concrete run with a late request, as the clock is read before the lock, for which `RefinesIdeal` fails: it does not meet the condition, and its last request is granted where the ideal limiter refuses it |
| `ExecuteOnce.ExecutorService.ExecuteOnce` | examples/hyperliquid-testnet-executor/server.py:225-251 | the locked section checks, reserves, runs and records as one pass of the section function |
| `ExecuteOnce.Linearizable` | examples/hyperliquid-testnet-executor/server.py:225-251 | in every interleaving of any threads, tables, answers and executions are those of the calls made one after another in lock order |
| `ExecuteOnce.EveryAnswer` | examples/hyperliquid-testnet-executor/server.py:225-251 | in every interleaving each call is answered by the last earlier call of its key that executed, in lock order: refused if its fingerprint differs, its artifact, or reconciliation if it raised |
| `ExecuteOnce.AnswersTold` | examples/hyperliquid-testnet-executor/server.py:225-251 | the same for calls made one after another |
| `ExecuteOnce.ReusedAndCached` | examples/hyperliquid-testnet-executor/server.py:225-251 | a key is refused as reused if and only if the last earlier executed call with it has another fingerprint; a cached artifact is one that an earlier call with the same key and fingerprint returned, and reconciliation follows one that raised |
| `ExecuteOnce.LogRecorded` | examples/hyperliquid-testnet-executor/server.py:225-251 | the tables record of a key exactly what its last executed call left |
| `ExecuteOnce.LastIsEarlier` | examples/hyperliquid-testnet-executor/server.py:225-251 | the last executed call of a key is one of the earlier calls, and was answered with what its operation did |
| `ExecuteOnce.AtMostOnce` | examples/hyperliquid-testnet-executor/server.py:225-251 | in every interleaving a key executes at most once more than its operation returned `None` |
| `ExecuteOnce.AtMostOncePerKey` | examples/hyperliquid-testnet-executor/server.py:225-251 | a key whose operation never returns `None` executes at most once |
| `ExecuteOnce.NoneRunsAgain` | examples/hyperliquid-testnet-executor/server.py:234-249 | a `None` result is not found again: two calls in a row execute twice |
| `ExecuteOnce.TablesAgree` | examples/hyperliquid-testnet-executor/server.py:203-251 | with the lock free, requests are those cached or uncertain, and a key is in only one of the two if and only if it is not an uncertain key that once returned `None` |
| `ExecuteOnce.LogAccounted` | examples/hyperliquid-testnet-executor/server.py:225-251 | the executions of a key are accounted for by its `None` results and where it is now |
| `ExecuteOnce.RaisedIsFinal` | examples/hyperliquid-testnet-executor/server.py:232-249 | in every interleaving, from any moment on and whoever holds the lock, a key whose operation raised executes no more, whatever steps follow |
| `ExecuteOnce.SettledStays` | examples/hyperliquid-testnet-executor/server.py:225-251 | in every interleaving, from any moment on and whoever holds the lock, no fingerprint and no artifact other than `None` changes, and a key stays uncertain unless the holder's own mark is about to be taken back |
| `ExecuteOnce.UncertainForGood` | examples/hyperliquid-testnet-executor/server.py:225-251 | an uncertain key stays so whatever steps follow if and only if it is not marked by a holder whose operation returns |
| `Calendar.FollowsCalendar` | apps/api/src/clearsign/expiry.rs:5-33 | every computed date exists in the proleptic Gregorian calendar, and the next day is computed as its successor, before and after 1970 |
| `Calendar.EpochIsRight` | apps/api/src/clearsign/expiry.rs:5-33 | day zero is 1970-01-01, which fixes every other day |
| `Calendar.StampExact` | crates/clear-msig-execution/src/message.rs:7-26 | for every i64: the date is that of the day the timestamp falls in, and hours, minutes and seconds make up the rest, negative times included |
| `Calendar.DaysInOrder` | apps/api/src/clearsign/expiry.rs:5-33 | later days have later dates |
| `Calendar.ExpiryOrder` | apps/api/src/clearsign/expiry.rs:5-33 | on the accepted range the texts are ordered as the timestamps are |
| `Calendar.AcceptedRange` | apps/api/src/clearsign/expiry.rs:25-29 | a timestamp is accepted if and only if it is from 0 to 253402300799, the last second of the year 9999 |
| `Calendar.TextFields` | apps/api/src/clearsign/expiry.rs:30-32 | the 19 places of an accepted text are the digits of year, month, day, hour, minute and second, with their separators |
| `Vector.ExpiryText` | apps/api/src/clearsign/expiry.rs:57-59 | a concrete date and time |
| `Calendar.EraYear` | apps/api/src/clearsign/expiry.rs:12-22 | the two corrections of the formula find the year and the day inside any 400 years |
| `Templates.EncodeParams` | crates/clear-msig-execution/src/params.rs:21-124 | the arguments are split into a table, later ones overriding, and the loop over definitions concatenates the encodings of the values their texts stand for, or stops at the first missing or malformed one |
| `Templates.SplitArguments` | crates/clear-msig-execution/src/params.rs:9-16 | the loop fills the table, or stops at the first argument without `=` |
| `Templates.ParseValue` | crates/clear-msig-execution/src/params.rs:34-120 | a text that parses gives a value of the declared type that its encoding can hold |
| `Templates.FindOffset` | crates/clear-msig-intent/src/render.rs:159-169 | the loop sums the sizes of the values before the target, or fails where a string has no length byte |
| `Templates.OffsetLands` | crates/clear-msig-intent/src/render.rs:42-206 | for every list of values with strings up to 255 bytes and whatever follows: the walk lands exactly at value i, and decoding there returns it |
| `Templates.ParamsDecode` | crates/clear-msig-intent/src/render.rs:42-189 | from texts to bytes and back: for accepted arguments, whatever follows the bytes, the walk finds parameter i, decoding there gives the value of its text, and it renders as that value |
| `Templates.ParamsTyped` | crates/clear-msig-execution/src/params.rs:21-124 | accepted arguments give one encodable value of the declared type for each definition |
| `TemplateLaws.ValueIff` | crates/clear-msig-execution/src/params.rs:34-120 | for every type: a text parses as a value if and only if it is a decimal number of that value within its width, a sign allowed where the type has one, one of the four boolean words, or what the decoders give |
| `TemplateLaws.UnsignedIff` | crates/clear-msig-execution/src/params.rs:40-95 | a text reads as n if and only if it is digits, behind an optional plus, whose value is n, below the limit |
| `TemplateLaws.SignedIff` | crates/clear-msig-execution/src/params.rs:48-54 | the same with a minus, over all of i64 |
| `TemplateLaws.ValueBytes` | crates/clear-msig-execution/src/params.rs:34-120 | a value is encoded at its width, least significant byte first, negative numbers in two's complement, and a string behind its length |
| `TemplateLaws.ValuesInOrder` | crates/clear-msig-execution/src/params.rs:21-124 | encodings follow one another in the order of the definitions |
| `TemplateLaws.LastArgumentWins` | crates/clear-msig-execution/src/params.rs:9-16 | the table exists if and only if every argument has an equals sign, and holds for a name exactly the text of the last argument giving it |
| `TemplateLaws.ParamsIff` | crates/clear-msig-execution/src/params.rs:21-124 | arguments are accepted if and only if every definition is given a text that parses |
| `TemplateLaws.DecodeIff` | crates/clear-msig-intent/src/render.rs:42-126 | decoding at an offset succeeds if and only if the bytes of the type are there, and returns the value they spell |
| `TemplateLaws.ShownReadsBack` | crates/clear-msig-intent/src/render.rs:54-125 | a number or boolean shown to a signer, typed in again, is the same value |
| `Templates.ValidateTemplate` | crates/clear-msig-intent/src/validation.rs:108-150 | the scanning loop accepts exactly the valid templates, and terminates |
| `Templates.RenderTemplate` | crates/clear-msig-intent/src/render.rs:6-40 | the scanning loop renders segment after segment, or fails at the first that does not render, and terminates |
| `Templates.ShowValue` | crates/clear-msig-intent/src/render.rs:54-125 | every decoded value reads, but for a string that is not UTF-8 |
| `Templates.RenderIffValid` | crates/clear-msig-intent/src/render.rs:6-157 | rendering succeeds if and only if validation accepts the template and every parameter it refers to can be read from the data |
| `Templates.RenderParam` | crates/clear-msig-intent/src/render.rs:42-157 | walking to the parameter, decoding it and printing it, by its power of ten if one is given, gives the text of the segment |
| `TemplateLaws.PlaceholderPrints` | crates/clear-msig-intent/src/render.rs:42-157 | parameter i prints as value i, or with a power of ten as the exact amount; a power of ten on anything but a u64 fails |
| `TemplateLaws.PrintsOver` | crates/clear-msig-intent/src/render.rs:128-157 | `{i:10^d}` prints digits with the value of parameter i over 10^d, without superfluous zeros |
| `TemplateLaws.SpecIff` | crates/clear-msig-intent/src/render.rs:128-138 | a format is `10^` and a number from 0 to 19, and nothing else |
| `TemplateLaws.InsideIff` | crates/clear-msig-intent/src/render.rs:25-33 | between braces stands an index, and behind a colon a format |
| `TemplateLaws.ScanIff` | crates/clear-msig-intent/src/render.rs:14-38 | scanning a template gives a list of segments if and only if the template is those segments written out: characters other than an opening brace, and placeholders up to the next closing one |
| `TemplateLaws.RendersSegments` | crates/clear-msig-intent/src/render.rs:6-40 | a template of visible text renders as its segments one after another, and renders only if it is made of segments |
| `TemplateLaws.SegmentsInOrder` | crates/clear-msig-intent/src/render.rs:6-40 | segments print in order, characters as themselves, and all fail if one does |
| `TemplateLaws.ValidSegments` | crates/clear-msig-intent/src/validation.rs:108-150 | a template is valid if and only if it is ASCII and every placeholder names a parameter, a format only on a u64 |
| `Templates.FormatDecimalU64` | crates/clear-msig-intent/src/render.rs:140-157 | popping zeros off the padded fraction prints the same text as the signing crate's exact amounts |
| `Registry.ManagedIntentRegistry.constructor` | crates/clear-msig-intent/src/managed_registry.rs:34-41 | version 1 and no templates |
| `Registry.ManagedIntentRegistry.Publish` | crates/clear-msig-intent/src/managed_registry.rs:44-95 | a new version is appended, an identical one returned as it stands, a different one refused as immutable, and the checks are reported in order |
| `Registry.ManagedIntentRegistry.Revoke` | crates/clear-msig-intent/src/managed_registry.rs:97-117 | only the publisher can withdraw a version, and only its status changes |
| `Registry.ManagedIntentRegistry.ResolvePublished` | crates/clear-msig-intent/src/managed_registry.rs:119-142 | a version resolves if found, published, and named by its hash in either case |
| `Registry.ManagedIntentRegistry.Validate` | crates/clear-msig-intent/src/managed_registry.rs:144-168 | the two loops accept exactly registries whose entries are each consistent and whose versions are distinct |
| `Registry.RunsValidate` | crates/clear-msig-intent/src/managed_registry.rs:44-168 | every run of publications and revocations from a registry that validates, such as the empty one, ends in one that validates |
| `Registry.AdmitIff` | crates/clear-msig-intent/src/managed_registry.rs:44-80 | a publication is admitted if and only if its publisher is not blank, its version not zero, its definition valid, named and no built-in; the entry holds the trimmed publisher, the definition and its hash |
| `Registry.AdmitRefused` | crates/clear-msig-intent/src/managed_registry.rs:44-80 | otherwise it is refused for the first of these that fails |
| `Registry.ConsistentIff` | crates/clear-msig-intent/src/managed_registry.rs:144-168 | a registry validates if and only if each entry is what publishing its content gives, withdrawn or not, and no version occurs twice |
| `Registry.FirstAnswered` | crates/clear-msig-intent/src/managed_registry.rs:44-95 | after any run that did not publish a version, a good publication of it is answered with the new entry |
| `Registry.AgainAnswered` | crates/clear-msig-intent/src/managed_registry.rs:81-90 | after any run that did, with the entry as it stands if publisher and definition are the same, and as immutable if not |
| `Registry.NothingAnswered` | crates/clear-msig-intent/src/managed_registry.rs:97-142 | a version never published is not found, neither to be withdrawn nor to be resolved |
| `Registry.PublishedAnswered` | crates/clear-msig-intent/src/managed_registry.rs:97-142 | after any run: withdrawing is answered by who published first, resolving by whether it was withdrawn since and which hash is given |
| `Registry.LowerIff` | crates/clear-msig-intent/src/managed_registry.rs:134-138 | two hashes are compared letter by letter, ASCII case aside and nothing else |
| `Registry.VersionsImmutable` | crates/clear-msig-intent/src/managed_registry.rs:44-117 | publisher, hash and definition of a version never change, and a revoked one stays revoked even if published again |
| `Registry.RunIsLife` | crates/clear-msig-intent/src/managed_registry.rs:44-117 | what the registry holds for a version depends on the operations on that version alone |
| `Registry.History` | crates/clear-msig-intent/src/managed_registry.rs:44-117 | a version is its first admissible publication, withdrawn exactly if its publisher revoked it later |
| `Registry.ResolvesIff` | crates/clear-msig-intent/src/managed_registry.rs:119-142 | a version resolves if and only if it was published, never revoked by its publisher after, and the given hash is that of the first publication |
| `Accounts.CurrentDecodes` | crates/clear-msig-execution/src/accounts.rs:334-415 | every intent account in the current layout decodes to itself, whatever bytes follow |
| `Accounts.ExactLegacyDecodes` | crates/clear-msig-execution/src/accounts.rs:373-388 | old accounts that end with their pool, or before it, decode to no ciphertexts and that pool |
| `Accounts.LegacyDecodesIff` | crates/clear-msig-execution/src/accounts.rs:373-388 | an old account with bytes behind it decodes to itself if and only if they do not read as a vector, or both are empty; otherwise the pool is taken for the ciphertexts |
| `Accounts.LegacyMisread` | crates/clear-msig-execution/src/accounts.rs:373-388 | a concrete case: four zero bytes behind a pool make it the ciphertexts |
| `Accounts.ParsedHasLayout` | crates/clear-msig-execution/src/accounts.rs:334-415 | nothing decodes but the current layout, the old one, or one that ends before its pool |
| `AccountSchema.IntentAsTable` | crates/clear-msig-execution/src/accounts.rs:334-415 | the layouts of an intent account are flat tables of fields, vectors behind a four-byte length, least significant byte first |
| `AccountSchema.FrontRefused` | crates/clear-msig-execution/src/accounts.rs:334-350 | what is empty or begins with another discriminator is no such account, and what is shorter than its fixed front ends too early |
| `Accounts.TypedDecodes` | crates/clear-msig-execution/src/accounts.rs:788-860 | typed proposals decode from the current layout always, and from the old one under the same exact condition |
| `AccountSchema.TypedAsTable` | crates/clear-msig-execution/src/accounts.rs:788-860 | the two layouts of a typed proposal as tables of fields |
| `Accounts.BackedEntries` | crates/clear-msig-execution/src/accounts.rs:159-180 | once the whole size is checked no entry can run out of data |
| `Accounts.Cursor.ReadEntries` | crates/clear-msig-execution/src/accounts.rs:159-180 | the entry loop takes exactly the counted entries, or refuses an unbacked length before any, or the first bad discriminant |
| `Accounts.ReadIntent` | crates/clear-msig-execution/src/accounts.rs:334-415 | advancing the offset field by field gives the account or the first error |
| `Accounts.ReadIntentTail` | crates/clear-msig-execution/src/accounts.rs:373-388 | the current tail if it reads, else the old one from the saved offset |
| `Accounts.ReadTyped` | crates/clear-msig-execution/src/accounts.rs:788-860 | on either failure the offset goes back and one vector is read |
| `Accounts.EncodePolicyCiphertexts` | crates/clear-msig-execution/src/accounts.rs:900-926 | succeeds if and only if the encoded size is at most 2048; the other two errors arise exactly from the count and the first long identifier |
| `Accounts.DecodePolicyCiphertexts` | crates/clear-msig-execution/src/accounts.rs:928-947 | the loop takes the counted identifiers, or fails at the first truncated one |
| `Accounts.SizeCovers` | crates/clear-msig-execution/src/accounts.rs:900-926 | the size limit alone rules out too many and too long identifiers |
| `AccountSchema.KeptExactly` | crates/clear-msig-execution/src/accounts.rs:900-910 | the identifiers kept are those that are not blank, each trimmed, in their order |
| `AccountSchema.IdsAsTable` | crates/clear-msig-execution/src/accounts.rs:900-926 | they are encoded behind their count, each behind its two-byte length |
| `AccountSchema.IdsSplit` | crates/clear-msig-execution/src/accounts.rs:928-947 | decoded identifiers are the readings of consecutive length-prefixed parts of the bytes, and the only failure is an early end |
| `Accounts.IdsSurvive` | crates/clear-msig-execution/src/accounts.rs:895-947 | identifiers encoded into an account come back trimmed, without the empty ones and in order, through the whole account layout |

## Left out

- Refusals.EncodeAnswer: for a buffer too short for the layout and a bad row at once it leaves open which of the two is reported; `Wire.BodyFits` has the order.
- Refusals.ParseAnswer: about layouts of requests; what is neither a layout nor has a fault listed in `Refusals.UnknownCodes` or `Acceptance.HeaderRefused` is refused, but with which error is stated by `Codec.ParseIntent` alone.
- AccountSchema.FrontRefused: names the errors of the fixed front only; those of the vectors behind it are stated by `Accounts.ReadIntent`.
- Vector.FullDocument: the recipient is given as the base58 text of its key, not letter by letter, and the digests of the vector are left out with SHA-256.
- Calendar.ExpiryOrder: covers the range that `format_expiry` accepts; the second copy of the algorithm, in `message.rs`, prints any year, and its texts outside four digits are not ordered.
- Base58.LeadingOnes: for an all-zero key the text has one `1` more than standard base58; this is stated, not excluded, and injectivity holds there too.
- Io.Writer.Amount: requires a whole amount for 37 or 38 decimals, where the 36-place scratch buffer would be indexed out of range; validated rows have at most 36.
- Payload.PayloadIffContent: content is the committed identity bytes, so two requests that give the same bytes as text, key or digest have the same payload hash; the identity encoding itself is not hashed.
- Hashing.SplEscrowReturnCommitment: the destination count is added without the overflow check of a debug build.
- Templates.EncodeParams: base58, hexadecimal and UTF-8 are parameters, parameter names are given rather than read from the byte pool, and the warning about unknown arguments is not modelled.
- Templates.ParseValue: base58, hexadecimal and UTF-8 are parameters.
- Templates.RenderTemplate: the base58 and UTF-8 readings of values are parameters.
- Registry.ManagedIntentRegistry.Validate: the checks on accounts, instructions and transaction templates are a parameter, as for every result of this module.
- Registry.RunsValidate: the checks on accounts, instructions and transaction templates, the canonical JSON digest and the built-in list are parameters; names, ids, the schema version and the template text are checked as in the source.
- Accounts.ReadIntent: fixed-width fields and entries stay undivided bytes; their discriminants are checked.
- Accounts.ReadTyped: the fixed-width fields stay undivided bytes.
- Accounts.CurrentDecodes: fixed-width fields and entries keep their bytes; their discriminants are checked but the split into fields is not modelled.
- Accounts.IdsSurvive: assumes of UTF-8 that lossy decoding gives an encoded string back.
- ExecuteOnce.ExecutorService.ExecuteOnce: the fingerprint comes with the call; hashing kind and request into it is not modelled.
- ExecuteOnce.Linearizable: validation, fingerprinting and the operations' effects outside the process are not modelled; the steps inside the lock are one read or write each.
- RateLimit.RefinesIdeal: does not cover runs in which a request is timed before one that pruned ahead of it, which reading the clock before the lock allows; the law fails there (RateLimit.LateIsGranted).
- RateLimit.TwiceTheLimit: does not cover such runs, where no bound holds (RateLimit.NoBoundOvertaken), nor keys whose own requests are out of time order, for which RateLimit.ThriceTheLimit is the exact bound.
- RateLimit.ThriceTheLimit: does not cover requests timed before the limiter was made, which a clock that never goes back rules out.
- Rendering.RenderDocument: renders single transfers that the parser accepted. The batch, governance, policy, escrow, agent and schedule branches of the documents are not modelled; display assets may hold spaces, so a one-line batch row is not uniquely readable and nothing is claimed of it.
- Rendering.RenderFull: the single-transfer branch only.
- Rendering.RenderCompact: the single-transfer branch only.
- Rendering.WriteReviewFooter: the category and check lines of a send only.
- Error messages of the API, intent and execution crates are replaced by one constructor per cause, or by none where only success matters.
- The policy commitments, the v3 JSON envelope and its documents, and `update_recipient_amount`.
- On-chain handlers, the settlement service, HTTP routing, RPC clients, key and address encodings other than base58.
