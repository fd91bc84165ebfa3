# ENS misc tools: a verified model of the name, subname and routing core

This project models the deterministic core of a browser tool that looks up Ethereum Name Service (ENS) names. It has three parts.

- **Names** (`utils.dfy`, on top of `js_string.dfy`, `numerals.dfy` and `keccak.dfy`):
  - EIP-137 `namehash`, as the two loops of the source, proved against a right fold over the labels;
  - `normalize` over an abstract ENSIP-15 library;
  - `parseName`: label, parent, level, `.eth` flags and the two decimal token ids;
  - the small helpers `containsIgnoreCase`, `shortAddr`, `hasExpiry`, `parseExpiry` and `validChain`.
- **Subnames** (`check_subnames.dfy`):
  - the NameWrapper fuse tests: bit 0 is `CANNOT_UNWRAP`, bit 16 is `PARENT_CANNOT_CONTROL`;
  - the state tag (Locked / Emancipated) and the expiry tag (Expired / Expiring Soon) of a row;
  - the label fallbacks and `convertLabelhash`;
  - the page count and page offsets;
  - the `doUpdate` loader, which merges the registry and wrapper answers into a page and stores it in the component's page cache.
- **Routing** (`misc.dfy`): `routerPush` trims spaces from both ends of a name with two loops, skips `..`, pushes the encoded path and returns the trimmed name.

Everything outside the program is a parameter:
- Keccak-256 and UTF-8 encoding are the two functions of a `Hasher`;
- the normalization library is a `Normalizer`;
- the subgraph and the contracts are a `Network`;
- the date formatter, `encodeURIComponent`, `getAddress` and the current time are passed in.

Nothing is assumed about them beyond their types. A Keccak digest is 64 lower-case hex digits.

## Model

| member | source | states |
|---|---|---|
| Utils.Namehash | src/lib/utils.js:7-24 | Building 32 zero bytes and folding the labels from last to first gives the EIP-137 fold `NameHash`. The result is always `0x` plus 64 lower-case hex digits. An empty or missing name gives `0x` plus 64 zeros: nothing is rejected. |
| Utils.NameHashOfChild | src/lib/utils.js:14-23 | For a label without a dot and a non-empty parent, the node of `label.parent` is the hash of the 64 bytes whose hex is the parent's node followed by the label's hash. |
| Keccak.MoreZeros | src/lib/utils.js:10-12 | Appending `00` to `n` zero digits gives `n + 2` zero digits, the step of the first loop. |
| Utils.Normalize | src/lib/utils.js:26-57 | Valid exactly when `ens_normalize` succeeds. On failure: empty normalized and beautified names, the error set, and the display name is the input. On success: normalized iff the input equals its normalized form; needs beautification iff beautifying succeeds with a different text. The display name is the beautified name then, otherwise the normalized one. A failing beautify keeps validity and records its error. |
| Utils.NormalizeTwice | src/lib/utils.js:26-57 | With an idempotent library, the normalized name is valid, already normalized, a fixed point, and has the same display name. |
| Utils.ParseName | src/lib/utils.js:60-109 | The step-by-step assignments produce exactly `Parsed`, the field-by-field definition through the first dot, the dot count and the suffix. |
| Utils.ParsedNotString | src/lib/utils.js:61-73 | A non-string input gives level 0, every text empty and both flags false. |
| Utils.ParsedBySplit | src/lib/utils.js:76-85 | The fields are those of `split('.')`: the level is the number of pieces, the label is the first piece, the parent joins the rest, and `isETH` means the last piece is `eth`. |
| Utils.ParsedAsSplit | src/lib/utils.js:74-92 | The record the string branch assigns from the pieces of `split('.')` (node, first piece, joined rest, piece count, last piece `eth`) is the record `Parsed` defines without `split`. |
| Utils.FirstDotPiece | src/lib/utils.js:80 | The first piece of `split('.')` is the text before the first dot. |
| Utils.AfterFirstDot | src/lib/utils.js:82 | Joining the pieces after the first gives the text after the first dot, or the empty text without a dot. |
| Utils.DotPieceCount | src/lib/utils.js:76-85 | There is one piece more than dots, and the last piece is `eth` exactly for names ending in `.eth` or equal to `eth`. |
| Utils.ParsedSplitsName | src/lib/utils.js:80-82 | The label has no dot. With a dot, label + `.` + parent is the name. Without one, the label is the whole name, the parent is empty and the level is 1. |
| Utils.ParsedNodeFromParent | src/lib/utils.js:74-83 | When the parent is not empty, `node` is the hash of `parentNode`'s bytes followed by the label hash, linking the two namehash calls. |
| Utils.ParsedTokenIds | src/lib/utils.js:85-92 | `isETH2LD` holds iff `isETH` and level 2, that is a `.eth` name with exactly one dot. The registrar token id is non-empty iff `isETH2LD`, and it is the canonical decimal of the label hash's value. The wrapped token id is always the canonical decimal of the node's value. |
| Utils.ContainsIgnoreCase | src/lib/utils.js:111-113 | True iff both texts are non-empty and the lower-cased value occurs in the lower-cased text. |
| Utils.ShortAddr | src/lib/utils.js:115-120 | From ten characters on: the first six characters, `...` and the last four (13 in all). Shorter input is returned unchanged. |
| Utils.HasExpiry | src/lib/utils.js:122-124 | True iff the seconds are positive and at most 8640000000000, the `Date` limit. |
| Utils.ParseExpiry | src/lib/utils.js:126-142 | The text `None` without an expiry. Otherwise the formatter's text for the instant in milliseconds, which lies within the `Date` range. |
| Utils.ValidChain | src/lib/utils.js:154-156 | True iff some listed chain has the id. |
| JsString.Split | src/lib/utils.js:15 | `split` yields at least one piece, and no piece contains the separator. |
| JsString.SplitLength | src/lib/utils.js:76-77 | `split` yields one piece more than there are separators. |
| JsString.JoinSplit | src/lib/utils.js:76-82 | Joining the pieces of `split` with the same separator gives back the text. |
| JsString.SplitTail | src/lib/utils.js:82 | The pieces after the first, joined, are the text after the first separator. |
| JsString.LastPiece | src/lib/utils.js:85 | For a word without the separator: the last piece is the word iff the text is the word or ends with separator + word. |
| JsString.FirstIndex | src/lib/utils.js:80 | The index of the first occurrence, or the length when there is none. |
| JsString.Lower | src/lib/utils.js:112 | ASCII `toLowerCase`, character by character, length kept. |
| JsString.IndexOf | src/lib/utils.js:112 | `indexOf` gives the least index of an occurrence from `from`, or -1 when there is none. From 0 it is non-negative iff the pattern occurs. |
| Numerals.HexBytes | src/lib/utils.js:19 | `Buffer.from(hex, 'hex')` yields at most one byte per two characters. |
| Numerals.ToHexOfHexBytes | src/lib/utils.js:19 | On an even-length lower-case hex text, reading the bytes and writing them back is the identity, and there are half as many bytes as digits. |
| Numerals.HexBytesOfToHex | src/lib/utils.js:19 | Writing bytes as hex and reading them back is the identity. |
| Numerals.HexValue | src/lib/utils.js:89-92 | The value of a hex text is below 16 to the power of its length. |
| Numerals.DecimalString | src/lib/utils.js:89-92 | `toString()` of a natural is a canonical decimal text that starts with `0` only for zero. |
| Numerals.DecimalStringValue | src/lib/utils.js:89-92 | The decimal text reads back as the number. |
| Numerals.DecimalStringInjective | src/lib/utils.js:92 | Different numbers have different decimal texts, so different nodes have different wrapped token ids. |
| CheckSubnames.BitAnd | src/components/check-subnames.js:177-178 | `a & b` is at most each operand. |
| CheckSubnames.BitAndPow2 | src/components/check-subnames.js:177-178 | Masking with `2^k` gives `2^k` when bit `k` is set and 0 otherwise. |
| CheckSubnames.FuseBits | src/components/check-subnames.js:177-178 | `isLocked` iff bit 0 of the fuses is set; `isEmancipated` iff bit 16 (65536) is set. |
| CheckSubnames.StateTagOf | src/components/check-subnames.js:181-215 | Locked iff the owner is non-zero and bit 0 is set. Emancipated iff the owner is non-zero, bit 0 is clear and bit 16 is set. No tag iff the owner is zero or neither bit is set. |
| CheckSubnames.ExpiryTagOf | src/components/check-subnames.js:217-240 | Only with a real expiry and a registry owner equal to the NameWrapper address. Expired iff now is at or past the expiry and the owner is zero. Expiring Soon iff the expiry is in the future and at most 90 days ahead, and bit 16 is set. |
| CheckSubnames.ExpiredHasNoStateTag | src/components/check-subnames.js:181-223 | An expired name never carries a state tag. |
| CheckSubnames.ExpiringSoonHasStateTag | src/components/check-subnames.js:181-232 | An owned name that is expiring soon always carries a state tag. |
| CheckSubnames.ConvertLabelhash | src/components/check-subnames.js:259-267 | Non-empty iff the hash is present with at least ten characters. Then the text is 13 characters: `[`, characters 2 to 5, `...`, the last four and `]`. |
| CheckSubnames.ConvertLabelhashLikeShortAddr | src/components/check-subnames.js:259-267 | The bracketed label hash is `shortAddr` of the hash without its `0x`, in brackets. |
| CheckSubnames.BuildRow | src/components/check-subnames.js:171-270 | The row builder's tag and label assignments produce `RowOf`, the row the tag and label rules define. |
| CheckSubnames.RowLabels | src/components/check-subnames.js:244-270 | `Label Unknown` is pushed iff the label name is falsy. A known label name is both the value and the short value. An unknown one falls back to the label hash in full and to `convertLabelhash` of it, which is empty unless the hash has ten characters or more. |
| CheckSubnames.RowShortLabelhash | src/components/check-subnames.js:259-270 | For an unknown label whose hash is `0x` plus a digest, the short value shows the digest's first and last four digits in brackets. |
| CheckSubnames.RowTagsConsistent | src/components/check-subnames.js:181-240 | A row tagged Expired has no state tag. |
| CheckSubnames.TotalPages | src/components/check-subnames.js:48 | The page count holds the count and has no spare page: `(pages - 1) * 10 < count <= pages * 10`. |
| CheckSubnames.TotalPagesLeast | src/components/check-subnames.js:48 | No smaller number of pages of ten holds the count. |
| CheckSubnames.ParsedNode | src/components/check-subnames.js:80-82 | The node taken from `parseName(normalizedName)` is the EIP-137 namehash of the normalized name. |
| CheckSubnames.DoUpdateTotalPages | src/components/check-subnames.js:26-56 | A positive page count needs a non-empty valid name on a supported chain and a positive subdomain count for its node, and is then the ceiling of that count over ten. Otherwise it is 0, including when the query throws or has no count. |
| CheckSubnames.PageOffset | src/components/check-subnames.js:90-91 | The offset of page 1 or later is non-negative and a multiple of the page size. |
| CheckSubnames.PagesDisjoint | src/components/check-subnames.js:90-91 | Two different pages request disjoint index ranges. |
| CheckSubnames.IndexOnSomePage | src/components/check-subnames.js:90-91 | Every index below the count falls on page `index / 10 + 1`, which lies between 1 and the page count. |
| CheckSubnames.QueryNode | src/components/check-subnames.js:80-82 | The queried node is `parseName(normalizedName).node`, a well-formed node. |
| CheckSubnames.ApplyRegistryOwners | src/components/check-subnames.js:101-103 | Succeeds iff every owner call answers and `getAddress` exists whenever there is a row. Each row then gets its checksummed registry owner and is otherwise unchanged. |
| CheckSubnames.ApplyWrapperData | src/components/check-subnames.js:105-113 | Succeeds iff every `getData` call answers and `getAddress` exists whenever there is a row. Each row then gets the checksummed owner, fuses and expiry. |
| CheckSubnames.LoadPage | src/components/check-subnames.js:84-116 | The page loads iff the chain's contracts are set up, the page query answers, every contract call answers, and `getAddress` exists when there is a row. The loaded rows are the queried rows, `\|\| []` included, with both answers merged in. |
| CheckSubnames.NameData.constructor | src/components/check-subnames.js:327-333 | `defaultNameData`: not loaded, no success, no pages. |
| CheckSubnames.DoUpdate | src/components/check-subnames.js:70-126 | Without a name, a positive page and a positive page count, the result is the default data. The data is loaded iff the name is also valid and the chain supported. Success iff loaded and the page loads, which needs the chain's contracts to be set up even for an empty page; the cache then holds exactly that page with merged rows, and otherwise holds nothing. |
| CheckSubnames.MissingGetAddressFailsPage | src/components/check-subnames.js:101-113 | With `getAddress` missing, no page with a row can be answered. |
| CheckSubnames.PageLoadsWithGetAddress | src/components/check-subnames.js:101-116 | With a `getAddress`, a page whose calls all answer loads, and each row keeps its id and labels and carries both checksummed answers. |
| MiscHooks.LeadingSpaces | src/hooks/misc.js:51-53 | The number of leading spaces: all of them are spaces, and the next character is not. |
| MiscHooks.TrailingSpaces | src/hooks/misc.js:54-56 | The number of trailing spaces: all of them are spaces, and the character before them is not. |
| MiscHooks.TrimmedEdges | src/hooks/misc.js:51-56 | The trimmed name neither starts nor ends with a space. |
| MiscHooks.TrimmedInfix | src/hooks/misc.js:51-56 | The name is some spaces, the trimmed name and some spaces. Interior characters and other whitespace are kept. |
| MiscHooks.TrimmedIdempotent | src/hooks/misc.js:51-56 | Trimming the trimmed name changes nothing. |
| MiscHooks.Router.Push | src/hooks/misc.js:62 | The pushed path is appended to the router's history. |
| MiscHooks.PushedPath | src/hooks/misc.js:49-62 | The base path alone for an empty or missing name, or when the trimmed name is `..`. Otherwise the base path plus the encoded trimmed name. |
| MiscHooks.RouterPush | src/hooks/misc.js:48-65 | Pushes exactly `PushedPath` and nothing else. Returns the trimmed name, not the encoded one, or the input unchanged when it is empty or missing. |
| MiscHooks.PushedPathDeterminesName | src/hooks/misc.js:57-62 | With an injective encoding, two non-empty names other than `..` push the same path only when their trimmed forms agree. |

## Findings

| source | as written | input that shows it | evidently intended | confidence | as-written member | corrected member |
|---|---|---|---|---|---|---|
| src/components/check-subnames.js:5 | Line 5 imports `getAddress` from `../lib/utils`, which exports no such function, so `getAddress` is `undefined`. The calls at lines 103 and 109 then throw inside the `try`. | Any valid name whose page lists at least one subname. `success` stays false and no page is stored. | A checksumming `getAddress` (as in ethers), so that rows are stored with their owners. | Medium: it relies on the bundler resolving a missing import to `undefined` rather than rejecting the module. Not executed. | CheckSubnames.MissingGetAddressFailsPage | CheckSubnames.PageLoadsWithGetAddress |

`getAddress` is a parameter of `DoUpdate`, `LoadPage` and the two merge methods. `None` models the import as written; `Some(f)` models the corrected import.

## Left out

- Keccak-256 (`js-sha3`) and the UTF-8 encoding of labels are abstract parameters of a `Hasher`. A digest is only known to be 64 lower-case hex digits.
- `ens_normalize` and `ens_beautify` are abstract partial functions of a `Normalizer`. The Unicode tables of ENSIP-15 are not modelled.
- Utils.Normalize: takes a string. A non-string argument, which the library would reject with a type error, is not modelled.
- Utils.ParseName: the `catch` block is not modelled. Nothing in its `try` block throws for a string: the hex readers are total on digests.
- Numerals.HexBytes: reads hex pairs up to the first pair that is not hex. Only the lower-case digests that `namehash` produces are ever passed to it. Node's lenient handling of odd lengths is not modelled further.
- Utils.ParseExpiry: the `Intl.DateTimeFormat` rendering is the `format` parameter. Time zones and locales are not modelled.
- Utils.ShortAddr: takes a string. The source's `address &&` guard, which hands a missing address back unchanged, is not modelled.
- Texts are sequences of Unicode scalar values, but JavaScript's `length` and `substring` count UTF-16 code units. So `Utils.ShortAddr` and `CheckSubnames.ConvertLabelhash` differ from the source on characters outside the Basic Multilingual Plane. Addresses and label hashes are hex, so no input of the core reaches this case.
- Utils.HasExpiry: returns the truthiness of the source's `&&` chain, not the JavaScript value the chain yields.
- Utils.ContainsIgnoreCase: returns a boolean, not the falsy operand (`""`, `undefined`) the source's `&&` chain yields for a missing argument. It lower-cases ASCII letters only. Full Unicode case mapping is not modelled, and neither are non-string truthy arguments.
- CheckSubnames.BitAnd: models `&` on non-negative numbers without the 32-bit conversion. The two masks, bit 0 and bit 16, are below bit 31, so fuses that fit in 32 bits give the same bits.
- CheckSubnames.ExpiryTagOf: treats the expiry (a big number from the contract) and the current time as integers. The current time is a parameter instead of `new Date().getTime()`.
- The subgraph `fetch` calls, `MulticallWrapper`, the `ethers.Contract` calls and `Promise.all` are the functions of a `Network`. A rejected contract call is a `None` answer. A throw while the Registry and NameWrapper contracts are set up from `ensConfig` (src/components/check-subnames.js:85-87) is `contracts(chain)` being false. The page is then not loaded, even when it has no rows.
- The React runtime is not modelled: `useState`, `useCache` with its success and error callbacks, the loading flags, the JSX rendering, `PageButtons`, and the colours and tooltip texts of the tags.
- `useChain`, `useDelayedName`, `useRouterPush`, `copyToClipBoard`, `sleep` and `toast` are not modelled: they are React, timer, clipboard or notification plumbing around the core.
- MiscHooks.RouterPush: takes a string or a missing name. Other JavaScript values are not modelled. `encodeURIComponent` is the `encode` parameter, and the router only records pushed paths.
- CheckSubnames.TotalPages: the source divides by the literal 10 at line 48, which equals the page size of line 24. The model uses the page size for both.
