# Azle, modelled

This project models the parts of Azle whose behaviour is hardest to see from the code, and proves what they promise. Azle is a TypeScript runtime for canisters of the Internet Computer; its documentation ships a syntax highlighter and a search, and its examples a Bitcoin wallet.

`dafny verify dfyconfig.toml` checks everything.

| modules | component |
|---|---|
| `StableJson`, `StableJsonTheorems`, `StableJsonKeys` | the ICP-enabled JSON serialiser: a top-down replacer and a bottom-up reviver, as sections 25.5.1 and 25.5.2 of ECMA-262 apply them |
| `ByteStore`, `StableBTreeMaps`, `DefaultStableMap` | `StableBTreeMap` over the byte-ordered stable memory, with any serializers and with the default ones |
| `Html`, `HighlightStreams`, `HighlightDocuments`, `TokenTree`, `HighlightTokenizer`, `HighlightPlacement`, `HighlightBlocks` | highlight.js: escaping, the merge of two streams of tags, the streams of documents, the token tree, the tokenizer, which nodes its text comes to be in, and the highlighting of an element end to end |
| `RegexPatterns`, `RuleTexts`, `RuleJoiner`, `RuleMatching`, `ResumableRules`, `ResumableRuns` | the rule combiner of highlight.js over a backtracking semantics of regular expressions (section 22.2.2 of ECMA-262) |
| `BitcoinWallet` | coin selection and the fee loop of both wallets |
| `ChunkedBody`, `ServerReply` | the experimental server: chunked transfer coding (section 7.1 of RFC 9112), the socket and its reply |
| `Teaser` | the teaser of the documentation's search |
| `CandidNames`, `CandidTypes`, `CandidReader` | the Candid printer: names, types and signatures, and a reader after the core grammar of the Candid specification |
| `CanisterMethods` | the registration of a class's canister methods |
| `CallbackTables` | the reducer for callbacks, calls, timers and the runtime around them |
| `Runs`, `Wrappers` | iterated steps; result types |

Code that changes state step by step is modelled by methods and classes, each proved against a specification function; the lemmas are about those functions.

## Where a promise does not hold

The code was kept as it is, and the exact condition proved instead.

- A value with a plain object that looks like a reserved tag, or has a property `_isPrincipal` that is `true`, does not come back from JSON: `RoundTrip` is an equivalence. `DefaultMapExactly` says for which keys and values a default map is a finite map; a key with an `undefined` property is listed as another key, which is not found (`NormalFormIsListed`).
- The fee loop need not end: with the same inputs, dropping the change output lowers the fee, which brings the change output back. `EndsOrTrapped` gives the bound within which this is decided, `NeverEndsExactly` the exact condition, and `FirstInputsDecide` and `OneUtxoNeverEnds` conditions on the amounts alone.
- The fee loop may report an insufficient balance although a transaction without change would settle (`RefusedNeedlessly`). `NeedlessErrorExactly` gives the exact condition, `OneUtxoNeedlessError` on the amounts alone.
- The chunk loop hangs on a size line that does not read as a number, even on one that starts with a hexadecimal digit (`NoProgress`, `HexDigitIsNotEnough`). Without a blank line the head ends, and the body starts, after three bytes.
- A round of the tokenizer can drop or repeat text: `RoundConserves` is an equivalence. An empty refused lexeme even adds the word "undefined".
- A mode with `skip` does not emit the text before it, so that with a class name it takes that text into its own node: `RoundPlaces` is an equivalence.
- The matcher of a mode may resume at the wrong rule: every cached joined matcher writes positions into the same rule objects. `ResumesAfterMatch` says exactly when; `TriesAgain` and `PassesOver` are rules and a text on which it happens.
- A query and an update may share a name, and the parameter types recorded for it are then those of the later one: `RecordPermutesExactly` is an equivalence, and `SharedNameDependsOnOrder` finds the other order.
- The printer leaves control characters in names as they are, which Candid texts do not allow: `CandidNameReads` and `CandidTypeReads` give what a reader recovers in either case. An empty tuple prints as an empty record.
- `nodeStream` looks for `br`, `hr`, `img` and `input` anywhere in a tag's name, so that `abbr` counts as void and gets no end tag (`AbbreviationStaysOpen`). `CombinesExactly` says for which blocks the markup is right.
- Both callbacks of a call are put into the tables before `callRaw` may throw, on cycles that are negative or above 2^128 - 1 for instance; then nothing ever deletes them (`RefusedCallStays`, `TooFewOrTooManyCycles`). `TablesAreExact` and `NothingIsLeft` are equivalences.

## Model

| member | source | states |
|---|---|---|
| `StableJsonTheorems.RoundTrip` | src/stable/lib/stable_structures/stable_json.ts:44-254 | Reviving, bottom-up, the tree that the replacer made top-down gives a value back up to normalisation (`undefined` properties gone, `undefined` slots holes) if and only if the value is clean: no plain object in it looks like a reserved tag or a principal. |
| `StableJsonTheorems.CleanComesBack` | src/stable/lib/stable_structures/stable_json.ts:44-254 | The direction on all nestings: every clean value, with all tags, typed arrays, maps and sets in it, comes back. |
| `StableJsonTheorems.CollisionsLoseObjects` | src/stable/lib/stable_structures/stable_json.ts:174-254 | The other direction: revival never adds a plain object, and every object that collides with a tag costs at least one, wherever it sits, so that the value cannot come back. |
| `StableJsonTheorems.ScalarComesBack` | src/stable/lib/stable_structures/stable_json.ts:45-89 | `undefined`, bigint, principal, NaN, both infinities, negative zero and the plain JSON values revive to themselves. |
| `StableJsonTheorems.TypedComesBack` | src/stable/lib/stable_structures/stable_json.ts:91-149 | Every typed array of any of the ten kinds comes back with its kind and its elements, although its tag object is itself walked by the replacer and reviver. |
| `StableJsonTheorems.ElementRanges` | src/stable/lib/stable_structures/stable_json.ts:91-149 | The elements that a typed array of integers or bigints can hold, kind by kind. |
| `StableJsonTheorems.MapOfComesBack` | src/stable/lib/stable_structures/stable_json.ts:151-155 | Every map of clean keys and values comes back with its entries in order: the new map neither merges nor reorders them. |
| `StableJsonTheorems.SetOfComesBack` | src/stable/lib/stable_structures/stable_json.ts:157-161 | Every set of clean items comes back with its items in order. |
| `StableJsonTheorems.DistinctExactly` | src/stable/lib/stable_structures/stable_json.ts:151-161 | The keys of a map and the items of a set are apart if and only if none but objects occurs among them more than once. |
| `StableJsonTheorems.MapSetFound` | src/stable/lib/stable_structures/stable_json.ts:244-246 | A primitive key that is read a second time keeps its place in the map and takes the later value. |
| `StableJsonTheorems.FirstKindIsFirst` | src/stable/lib/stable_structures/stable_json.ts:204-242 | The reviver looks at every typed-array tag: if it finds none, none is there. |
| `StableJsonTheorems.SpellingIsInjective` | src/stable/lib/stable_structures/stable_json.ts:44-164 | No two reserved tags are spelled alike, so that no tag is read as another. |
| `StableJsonTheorems.ScalarTrees` | src/stable/lib/stable_structures/stable_json.ts:45-89 | What is printed for `undefined`, NaN, the infinities, negative zero, bigints and principals: one member under the tag, literally, holding the tag or the text of the value; an array hole prints as `undefined`. |
| `StableJsonTheorems.TypedTree` | src/stable/lib/stable_structures/stable_json.ts:91-149 | A typed array is printed as its elements, in order, under the literal tag of its kind. |
| `StableJsonTheorems.MapTree` | src/stable/lib/stable_structures/stable_json.ts:151-155 | A map is printed under `__map__` as its entries in order, each a pair of its printed key and its printed value. |
| `StableJsonTheorems.SetTree` | src/stable/lib/stable_structures/stable_json.ts:157-161 | A set is printed under `__set__` as its items in order. |
| `StableJson.ReplaceShrinks` | src/stable/lib/stable_structures/stable_json.ts:44-164 | What the replacer returns has parts smaller than its argument in a structural measure, so that the top-down walk ends although it walks the tag objects. |
| `StableJsonTheorems.BytesRoundTrip` | src/stable/lib/stable_structures/stable_json.ts:17-32 | For a value whose text reads back, `fromBytes(toBytes(v))` is the normalised value if and only if the value is clean. |
| `StableJsonTheorems.BytesReturnValue` | src/stable/lib/stable_structures/stable_json.ts:17-32 | The very value is read back if and only if it is clean and in normal form already. |
| `StableJsonKeys.NormPrintsAlike` | src/stable/lib/stable_structures/stable_json.ts:44-164 | The replacer makes the same tree of a clean value and of its normal form if and only if no property anywhere in it is `undefined`. |
| `StableJsonTheorems.EqualBytesMeanEqualValues` | src/stable/lib/stable_structures/stable_json.ts:17-32 | Two clean keys with the same bytes are the same value up to normalisation. |
| `StableJsonTheorems.EqualValuesMayDifferInBytes` | src/stable/lib/stable_structures/stable_json.ts:45-49 | The converse fails: an `undefined` property changes the bytes and not the revived value. |
| `ByteStore.PutStores` | src/stable/build/commands/build/wasm_binary/rust/stable_canister_template/src/ic/stable_b_tree_map_insert.rs:22-40 | Inserting into the ordered entries keeps their order and updates exactly one key of the map they stand for. |
| `ByteStore.DropRemoves` | src/stable/build/commands/build/wasm_binary/rust/stable_canister_template/src/ic/stable_b_tree_map_remove.rs:9-20 | Removing keeps the order and removes exactly one key. |
| `ByteStore.FindIsLookup` | src/stable/lib/stable_structures/stable_b_tree_map.ts:117-158 | Searching the entries is looking up in the map they stand for. |
| `ByteStore.LessExactly` | src/stable/lib/stable_structures/stable_b_tree_map.ts:239-247 | Byte order: the first byte in which two keys differ decides, and a proper prefix comes first. |
| `StableBTreeMaps.RunRefines` | src/stable/lib/stable_structures/stable_b_tree_map.ts:80-487 | Over keys and values that the serializers round-trip, every run of all nine operations, from any represented state, answers as a finite map does, listings and pages in the order of the encoded keys and the limit on the number of entries included. |
| `StableBTreeMaps.FiniteMapIffRoundTrips` | src/stable/lib/stable_structures/stable_b_tree_map.ts:37-487 | A fresh map behaves as a finite map in every run if and only if both serializers round-trip everywhere. |
| `StableBTreeMaps.InsertThenItems` | src/stable/lib/stable_structures/stable_b_tree_map.ts:166-302 | Inserting one entry and listing the items is right if and only if that key and that value round-trip. |
| `StableBTreeMaps.ListingUnique` | src/stable/lib/stable_structures/stable_b_tree_map.ts:247-302 | A map has only one listing in the order of its encoded keys, so that what pages hold is determined. |
| `StableBTreeMaps.NextRepresents` | src/stable/lib/stable_structures/stable_b_tree_map.ts:166-208 | Every operation keeps the entries a representation of the abstract map. |
| `StableBTreeMaps.AnswerMeets` | src/stable/lib/stable_structures/stable_b_tree_map.ts:80-487 | Every single answer is the one the abstract map gives: a page is, of the one listing of the map, the items from the start on and at most as many as asked for. |
| `StableBTreeMaps.ItemsZip` | src/stable/lib/stable_structures/stable_b_tree_map.ts:247-487 | A page of `items` is the zip of the same pages of `keys` and `values`. |
| `StableBTreeMaps.PageIsPage` | src/stable/build/commands/build/wasm_binary/rust/stable_canister_template/src/ic/stable_b_tree_map_items.rs:14-40 | For every list: what `skip` and `take` leave has max(0, min(length, size - start)) entries, the i-th being the entry start + i; an absent start is 0, an absent length no bound. |
| `StableBTreeMaps.PagesExact` | src/stable/lib/stable_structures/stable_b_tree_map.ts:247-302 | A page is refused if and only if a bound given is no number of 32 bits; otherwise items, keys and values are exactly those from the start on, at most as many as asked for. |
| `StableBTreeMaps.PagesJoin` | src/stable/lib/stable_structures/stable_b_tree_map.ts:247-302 | Two consecutive pages are the one longer page, and without bounds the page is everything. |
| `StableBTreeMaps.ListedKey` | src/stable/lib/stable_structures/stable_b_tree_map.ts:80-208 | A key is listed as what it reads back as, and that is found if and only if it has the same bytes. |
| `StableBTreeMaps.StableBTreeMap.ContainsKey` | src/stable/lib/stable_structures/stable_b_tree_map.ts:80-109 | Whether the encoded key is stored. |
| `StableBTreeMaps.StableBTreeMap.Get` | src/stable/lib/stable_structures/stable_b_tree_map.ts:117-158 | The decoded value stored under the encoded key, if any. |
| `StableBTreeMaps.StableBTreeMap.Insert` | src/stable/lib/stable_structures/stable_b_tree_map.ts:166-208 | Stores the encoded value under the encoded key and returns the decoded value that was there; a new key beyond the limit throws and changes nothing. |
| `StableBTreeMaps.StableBTreeMap.Remove` | src/stable/lib/stable_structures/stable_b_tree_map.ts:394-432 | Removes the encoded key only, and returns the decoded value that was there. |
| `StableBTreeMaps.StableBTreeMap.Items` | src/stable/lib/stable_structures/stable_b_tree_map.ts:247-302 | Throws on bounds that are no 32-bit numbers, otherwise the decoded page that `PagesExact` describes, in the order of the encoded keys. |
| `StableBTreeMaps.StableBTreeMap.Keys` | src/stable/lib/stable_structures/stable_b_tree_map.ts:310-355 | The same page of keys alone (`PagesExact`). |
| `StableBTreeMaps.StableBTreeMap.Values` | src/stable/lib/stable_structures/stable_b_tree_map.ts:441-487 | The same page of values alone (`PagesExact`). |
| `DefaultStableMap.DefaultRoundTrips` | src/stable/lib/stable_structures/stable_b_tree_map.ts:42-46 | A value round-trips through the default serializer if and only if it is clean and in normal form. |
| `DefaultStableMap.DefaultMapIsFiniteMap` | src/stable/lib/stable_structures/stable_b_tree_map.ts:42-46 | With the default serializers, every run over such keys and values is a run of a finite map. |
| `DefaultStableMap.DefaultMapExactly` | src/stable/lib/stable_structures/stable_b_tree_map.ts:42-46 | Inserting one entry and listing the items is what a finite map does if and only if key and value are clean and in normal form: any other key or value shows. |
| `DefaultStableMap.NormalFormIsListed` | src/stable/lib/stable_structures/stable_json.ts:45-49 | With the default serializers, every clean key is listed as its normal form, and looking that up finds it if and only if no property anywhere in the key is `undefined`. |
| `Html.EscapeIsEntities` | docs/highlight.js:33-40 | The five replacements of the escaper in a row are the one replacement, character by character: no pass touches the entities of another. |
| `Html.DecodeEscape` | docs/highlight.js:33-40 | Decoding the entities gives the escaped text back. |
| `Html.StripRender` | docs/highlight.js:97-113 | Removing all tags from rendered tokens leaves exactly the escaped text of the tokens. |
| `Html.StartTagReads` | docs/highlight.js:97-110 | A rendered start tag is read back as its name and its attributes, values included, whatever they hold. |
| `Html.EndTagReads` | docs/highlight.js:111-113 | A rendered end tag is read back as its name. |
| `Html.ContainsExactly` | docs/highlight.js:69-69 | The test for a part of a name finds it exactly if it stands somewhere in the name. |
| `HighlightStreams.MergeStreams` | docs/highlight.js:80-131 | The in-place merge of any two streams in offset order, nested or not, ends and renders the tokens of the specification. |
| `HighlightStreams.MergedExactly` | docs/highlight.js:80-131 | Read as HTML, with the void elements of HTML, the merge of two well-nested streams puts around every character exactly the first stream's cover and then the second stream's, ties at one offset included, and closes everything in order; if the first stream leaves an element open, or ends one too many, so does the merge. |
| `HighlightStreams.MergedKeeps` | docs/highlight.js:114-130 | From every state of the loop, the rest of the merge completes what the state promises. |
| `HighlightStreams.TakeFirst` | docs/highlight.js:120-125 | The stack is closed, at least one event of the first stream is taken, and with it all that are next at the same offset, and the stack is reopened. |
| `HighlightStreams.MergedNoneEmpty` | docs/highlight.js:83-96 | The order of events at one offset: where neither stream has an element that ends where it starts, the markup has no empty element either, however the highlighter's tags are closed and reopened. |
| `HighlightStreams.MergedTextIsTheText` | docs/highlight.js:80-131 | The merged output without its tags is the escaped text, and decodes to the text, for any two ordered streams. |
| `HighlightDocuments.NodeStream` | docs/highlight.js:59-79 | The walk pushes exactly the events of the nodes in document order, and counts the characters of their text. |
| `HighlightDocuments.NodeStreamIsFaithful` | docs/highlight.js:59-79 | The stream of any document is ordered; it is balanced if and only if every element that is not void in HTML gets its end; and then it is well nested and covers every character with exactly the elements it is visibly inside of. |
| `HighlightDocuments.EventsNest` | docs/highlight.js:62-76 | The stream of a document whose elements are ended, followed by any stream, is well nested if and only if that stream is. |
| `HighlightDocuments.EventsOrdered` | docs/highlight.js:62-76 | The stream of a document is in the order of offsets and stays inside the text. |
| `HighlightDocuments.CoverIsVisible` | docs/highlight.js:62-76 | What a stream covers is where a character is in the tree: sequence positions and tree positions agree. |
| `HighlightDocuments.VisibleExactly` | docs/highlight.js:69-73 | A character is under exactly the elements it is inside of, everywhere, if and only if no void element holds text. |
| `HighlightDocuments.CombinesExactly` | docs/highlight.js:59-131 | The markup made of a document and its highlighted text is well nested, and puts every character under exactly its original elements and, inside them, its highlighted ones, if and only if every element whose name only contains br, hr, img or input is a void element of HTML, and no void element holds text. |
| `HighlightDocuments.AbbreviationStaysOpen` | docs/highlight.js:69-73 | An `abbr` with a text after it: the markup opens it, never closes it, and all the rest comes out inside it. |
| `HighlightDocuments.HighlightBlock` | docs/highlight.js:984-990 | An element with markup gets the merge of its stream with that of its highlighted document; without markup the result is used as it is. |
| `TokenTree.Emitter.OpenNode` | docs/highlight.js:173-176 | One more open node of the given kind, without text. |
| `TokenTree.Emitter.CloseNode` | docs/highlight.js:177-179 | Closing moves a finished node into its parent and never closes the root. |
| `TokenTree.Emitter.AddKeyword` | docs/highlight.js:214-216 | A keyword becomes a closed node of its own. |
| `TokenTree.Emitter.CloseAllNodes` | docs/highlight.js:180-182 | All nodes but the root are closed, and the root holds all text that was in any open node. |
| `TokenTree.KeywordAddedAppends` | docs/highlight.js:214-216 | A keyword appends its text and leaves the open nodes as they were. |
| `TokenTree.AddedMarks` | docs/highlight.js:170-176 | A node that is added is in the nodes that are open, and no character before it changes its nodes. |
| `TokenTree.ClosedMarks` | docs/highlight.js:177-179 | Closing a node leaves every character in the nodes it was in. |
| `TokenTree.KeywordAddedMarks` | docs/highlight.js:214-216 | The characters of a keyword, and no others, are in a node of its kind inside the open nodes. |
| `TokenTree.StripHtml` | docs/highlight.js:135-158 | The HTML of a token tree without its tags is the escaped text of the tree. |
| `HighlightTokenizer.PiecesAreTheBuffer` | docs/highlight.js:445-465 | The keyword loop cuts the buffer up: its pieces, joined, are the buffer, whatever words the pattern finds and whichever are keywords. |
| `HighlightTokenizer.Highlighter.EmitWords` | docs/highlight.js:445-465 | The loop over the keyword pattern emits exactly those pieces. |
| `HighlightTokenizer.Highlighter.Flush` | docs/highlight.js:445-467 | Outside sub-languages, the buffer is emitted, in pieces or as it is, and emptied; nothing else changes. |
| `HighlightTokenizer.Highlighter.BeginMatch` | docs/highlight.js:495-518 | A begin match: skip, exclude and return flags, the flush and the new mode; `BeginPlaces` says where that leaves the text. |
| `HighlightTokenizer.Highlighter.EndMatch` | docs/highlight.js:529-572 | An end match: the mode that ends, how its lexeme is kept, and the mode that starts; `EndPlaces` says where that leaves the text. |
| `HighlightTokenizer.Highlighter.Leave` | docs/highlight.js:559-563 | Modes are left, and their nodes closed, down to the one that ends. |
| `HighlightTokenizer.Highlighter.Refuse` | docs/highlight.js:474-478 | A refused begin match resumes the matcher, or moves on by one character when all rules were tried. |
| `HighlightTokenizer.Highlighter.Handle` | docs/highlight.js:480-579 | All branches of the lexeme processor, exceptions included. |
| `HighlightTokenizer.Highlighter.Seek` | docs/highlight.js:864-872 | The search for the next match, resumed or fresh, and the text before the match. |
| `HighlightTokenizer.BranchExactly` | docs/highlight.js:480-579 | When a match is handled in which way: zero-width ends, refused and accepted begins, ends that end a mode, illegal matches and what is kept as text exclude each other as the order of the tests has it, each under its exact condition. |
| `HighlightTokenizer.NextSearch` | docs/highlight.js:864-874 | Where the next round searches: after a refused match among the rules after it, from where this search began, or, if it was the last begin rule, one character on; after any other match with all rules, from where the round has come to. |
| `HighlightTokenizer.Highlighter.Advance` | docs/highlight.js:864-874 | One round of the loop is one step of the specification. |
| `HighlightTokenizer.Highlighter.Loop` | docs/highlight.js:864-874 | The loop is the iterated step; where it finds no match, modes, text and tree are those of a state it has come to. |
| `HighlightTokenizer.Highlighter.Highlight` | docs/highlight.js:863-914 | In every outcome the text is kept: the tree returned is the one of a run without a further match and holds exactly the code, a run that ends in an illegal lexeme, or in any exception in safe mode, shows the escaped code, and any other exception is thrown again. |
| `HighlightTokenizer.RoundConserves` | docs/highlight.js:864-874 | A round keeps emitted text plus buffer equal to the consumed code if and only if its match is handled faithfully: no return flag together with skip or exclude, no empty refused lexeme, no zero-width illegal match, no text of a zero-width end past the code. |
| `HighlightTokenizer.FaithfulContribution` | docs/highlight.js:480-579 | What a match adds to the text is what it moves past, exactly in the faithful cases. |
| `HighlightTokenizer.RunConserves` | docs/highlight.js:864-874 | Every round of every run of a language without those combinations conserves the text. |
| `HighlightTokenizer.LastConserves` | docs/highlight.js:875-879 | Emitting what is left after the last match makes the text the code. |
| `HighlightTokenizer.RoundAligned` | docs/highlight.js:468-473 | Every round keeps the open nodes equal to the class names of the active modes, unless an end match ends the language itself. |
| `HighlightPlacement.FlushedMarks` | docs/highlight.js:445-467 | Emitting the buffer puts every character of it into the open nodes, and exactly the words that the language lists as keywords into a node of their kind inside them. |
| `HighlightPlacement.BeginPlaces` | docs/highlight.js:508-518 | Where a begin match puts the text: all text before it goes into the nodes that were open; the new node is the innermost and empty, and the lexeme is the first text pending for it. With `excludeBegin` the lexeme still goes into the nodes that were open, with `returnBegin` nowhere yet; `skip` emits nothing. |
| `HighlightPlacement.EndPlaces` | docs/highlight.js:529-572 | Where an end match puts the text: all of it up to the end of the lexeme goes into the nodes that were open, before any is closed; with `excludeEnd` the lexeme is pending for what is open afterwards, with `returnEnd` nowhere yet; `skip` emits nothing. Afterwards the modes outside the ended one are active, and the one it starts. |
| `HighlightPlacement.EndTargetExactly` | docs/highlight.js:529-552 | Which mode an end match ends: the innermost that it ends at all, if every mode inside it ends with its parent, and then its parents as long as each mode ends its parent; none, or a crash, in exactly the other cases. |
| `HighlightPlacement.RoundPlaces` | docs/highlight.js:864-874 | A round leaves every character consumed so far in, or pending for, the nodes of the modes it belongs to if and only if its match does not put pending text off into other nodes, as only a named mode with `skip` does. |
| `HighlightPlacement.RunPlaces` | docs/highlight.js:864-874 | The same for every run whose rounds do not. |
| `HighlightPlacement.TreePlaces` | docs/highlight.js:863-914 | The finished tree of such a run: character by character it is the code, and each one is in exactly the nodes of the modes that were active where it was consumed (a begin lexeme in the new mode, an end lexeme in the ended one, unless excluded), and perhaps in a keyword inside them. |
| `HighlightBlocks.HighlightElement` | docs/highlight.js:956-993 | End to end, from the code through tokenizer, token tree, node streams and merge: every character of an element comes out under exactly the elements it was under and, inside them, exactly the spans of the token tree over it, if and only if every element of the block that the walk takes for void is void, and holds no text. |
| `HighlightBlocks.DocumentKeepsText` | docs/highlight.js:135-158 | The document of a token tree has the tree's text. |
| `HighlightBlocks.DocumentMarks` | docs/highlight.js:135-158 | In the document of a token tree every character is visible in exactly the spans of the nodes it is in. |
| `HighlightBlocks.DocumentIsHtml` | docs/highlight.js:135-158 | Rendering the document of a token tree gives the HTML of the tree, where its class names need no escaping: the two renderers agree. |
| `HighlightBlocks.SpansAreOrdinary` | docs/highlight.js:69-69 | The walk reports the end of every span, as the merge demands. |
| `RegexPatterns.ShiftPreserves` | docs/highlight.js:644-647 | A pattern whose backreferences are renumbered by the number of groups put before it matches exactly as before: the same ends in the same backtracking order, with the same captures under the moved numbers; repetition, lookahead and backreferences included. |
| `RegexPatterns.OutcomesFit` | docs/highlight.js:606-611 | A pattern captures only its own groups and never moves back. |
| `RuleTexts.WriteCut` | docs/highlight.js:621-649 | The pieces into which the joiner's own regular expression cuts a text, classes and escapes included, are the text: nothing is lost. |
| `RuleTexts.CutWrite` | docs/highlight.js:621-649 | Tokens that do not run into each other are cut again as they were. |
| `RuleJoiner.Join` | docs/highlight.js:619-653 | The joining loop works on texts, with its running count of groups: its result is the text of the alternation in which each rule has an outer group and backreferences to its own groups, and is read as that pattern. |
| `RuleJoiner.JoinedReads` | docs/highlight.js:619-653 | Where each text is read as its pattern, the joined text is read as the joined pattern: no class, escape or number is changed by its neighbours. |
| `RuleJoiner.FindPiece` | docs/highlight.js:636-644 | The first class, parenthesis, backreference or escape of a text is found, and everything before it stands for itself. |
| `RuleJoiner.TokensShift` | docs/highlight.js:635-649 | Rewriting the text of a pattern token by token renumbers the pattern, and the count of opening parentheses is its number of groups. |
| `RuleMatching.JoinedTriesInOrder` | docs/highlight.js:651-652 | At each position the first outcome of the joined pattern is that of the first rule that matches, moved into its groups. |
| `RuleMatching.JoinedSearches` | docs/highlight.js:658-661 | The leftmost match of the joined pattern is the match of the rules tried one by one at each position. |
| `RuleMatching.OuterLookup` | docs/highlight.js:662-665 | Of all groups of the joined pattern only those of the matching rule are defined: its outer group with the whole match, then its own groups. |
| `RuleMatching.JoinedArray` | docs/highlight.js:662-666 | The match array from the first defined group on is the array of the rule alone, followed by undefined groups only. |
| `RuleMatching.MultiRegex.AddRule` | docs/highlight.js:602-612 | `matchIndexes` keeps, at the number of each rule's outer group, that rule, and the rule object gets its position written into it. |
| `RuleMatching.MultiRegex.Exec` | docs/highlight.js:658-667 | The first defined group identifies the rule: the reported rule, index and groups are those of the first rule that matches leftmost on its own. |
| `ResumableRules.ResumesAfterMatch` | docs/highlight.js:678-706 | In every state of every run the search resumes after the matched rule if and only if the latest matcher built that contains the rule is the one that searched; otherwise the rule is tried again or rules are passed over. |
| `ResumableRules.EveryRunIsNumbered` | docs/highlight.js:602-604 | In every run each rule holds its position in the latest matcher built that contains it. |
| `ResumableRules.NewMatcherResumes` | docs/highlight.js:680-686 | A matcher used for the first time resumes correctly. |
| `ResumableRuns.TriesAgain` | docs/highlight.js:702-705 | Five rules and a text on which the searches of a mode resume at a rule that has just been refused at that place. |
| `ResumableRuns.PassesOver` | docs/highlight.js:702-705 | Five rules and a text on which the searches pass over a rule that matches at that place. |
| `ResumableRules.ResumableMultiRegex.JoinFrom` | docs/highlight.js:680-686 | The loop over the rules that writes each one's position in the new matcher into the rule object gives the numbering of the specification. |
| `ResumableRules.ResumableMultiRegex.GetMatcher` | docs/highlight.js:678-689 | Asking for a new matcher renumbers the rules it contains; a cached one is returned and changes nothing. |
| `ResumableRules.ResumableMultiRegex.Exec` | docs/highlight.js:697-709 | The cached or new matcher searches: it reports the first rule that matches leftmost among those left, with its own groups, and the search moves on by the position the rule object holds. |
| `BitcoinWallet.CountIsShortest` | examples/experimental/demo/basic_bitcoin/src/bitcoin_wallet.ts:181-190 | The UTXOs spent are the one shortest prefix of the reversed list that reaches amount and fee (or all of them), at least one if there is any. |
| `BitcoinWallet.InputsFromTheEnd` | examples/experimental/demo/basic_bitcoin/src/bitcoin_wallet.ts:181-190 | The inputs are, and are the only, list whose i-th member is the i-th UTXO from the end of the list and that is as short as will do. |
| `BitcoinWallet.ShortfallMeansTooLittle` | examples/experimental/demo/basic_bitcoin/src/bitcoin_wallet.ts:192-196 | Selection falls short if and only if all UTXOs together do. |
| `BitcoinWallet.LargerTargetSpendsMore` | examples/experimental/demo/basic_bitcoin/src/bitcoin_wallet.ts:183-190 | A larger fee spends an extension of what a smaller fee spends. |
| `BitcoinWallet.SelectUtxos` | examples/experimental/demo/basic_bitcoin/src/bitcoin_wallet.ts:181-190 | The selection loop returns, in terms of the list as it came, the UTXOs from its end, the last first, as few as reach amount and fee and at least one if there is any, and their sum. |
| `BitcoinWallet.BuildTransactionWithFee` | examples/experimental/demo/basic_bitcoin/src/bitcoin_wallet.ts:166-223 | The selected inputs with their outputs, the change output exactly above the dust threshold, or the error with the sum that falls short. |
| `BitcoinWallet.BuildConserves` | examples/experimental/demo/bitcoin_psbt/src/bitcoin_wallet.ts:162-220 | The inputs are taken from the end of the list, as few as will do. They are outputs plus a fee of at least the one asked for, less than 1000 satoshi above it, and equal to it when there is a change output; change is never dust and goes to the own address. |
| `BitcoinWallet.EndsOrTrapped` | examples/experimental/demo/basic_bitcoin/src/bitcoin_wallet.ts:132-163 | Within two rounds more than there are UTXOs the loop has ended, or it never ends: it is then in the trap. |
| `BitcoinWallet.TrappedForever` | examples/experimental/demo/basic_bitcoin/src/bitcoin_wallet.ts:132-163 | In the trap the loop goes on for ever, with and without the change output in turn. |
| `BitcoinWallet.RisingDecides` | examples/experimental/demo/basic_bitcoin/src/bitcoin_wallet.ts:132-163 | While fees rise, every round with too few inputs adds one, so that the number of rounds is linear in the UTXO count. |
| `BitcoinWallet.NeverEndsExactly` | examples/experimental/demo/basic_bitcoin/src/bitcoin_wallet.ts:132-163 | For any number of UTXOs the loop never ends if and only if, while fees still rise, it selects inputs whose sum pays for change at the fee without change, and covers the fee with change but leaves too little for the change itself. |
| `BitcoinWallet.GuardTraps` | examples/experimental/demo/basic_bitcoin/src/bitcoin_wallet.ts:213-220 | Selecting such inputs while fees rise leads into the trap in one round. |
| `BitcoinWallet.FirstInputsDecide` | examples/experimental/demo/basic_bitcoin/src/bitcoin_wallet.ts:132-163 | If the inputs selected for the amount alone also pay the fee with change, the loop never ends if and only if their amounts satisfy that condition. |
| `BitcoinWallet.NoGuardEnds` | examples/experimental/demo/basic_bitcoin/src/bitcoin_wallet.ts:132-163 | If for no number of inputs the amounts satisfy the guard of the trap, the loop ends. |
| `BitcoinWallet.OneUtxoNeverEnds` | examples/experimental/demo/bitcoin_psbt/src/bitcoin_wallet.ts:129-159 | With a single UTXO the loop never ends if and only if max(F2, 1000 + F1) <= value - amount < 1000 + F2. |
| `BitcoinWallet.NeverEndsDropsChange` | examples/experimental/demo/basic_bitcoin/src/bitcoin_wallet.ts:213-220 | A loop that never ends drops the change output in some round that keeps the same inputs. |
| `BitcoinWallet.EndIsSettled` | examples/experimental/demo/basic_bitcoin/src/bitcoin_wallet.ts:157-159 | Whenever the loop ends, the paid fee is at least that for the transaction's own signed size and less than 1000 satoshi above it, equal to it when there is change of at least 1000; the inputs come from the end of the list, as few as will do. An error names the sum of all UTXOs, which falls short. |
| `BitcoinWallet.NeedlessErrorExactly` | examples/experimental/demo/basic_bitcoin/src/bitcoin_wallet.ts:132-163 | For any number of UTXOs: where the loop ends in the error, a fee exists with which it would have returned a transaction if and only if, while fees rise, the loop jumps over such a fee: the inputs pay the fee without change, to less than the dust threshold, and not the fee with it. |
| `BitcoinWallet.OneUtxoNeedlessError` | examples/experimental/demo/bitcoin_psbt/src/bitcoin_wallet.ts:129-159 | With a single UTXO the error is thrown although a fee settles if and only if 1000 <= value - amount, F1 <= value - amount < F2 and value - amount < 1000 + F1. |
| `BitcoinWallet.RefusedNeedlessly` | examples/experimental/demo/basic_bitcoin/src/bitcoin_wallet.ts:132-196 | One UTXO of 120,000 satoshi, 100,000 to send at 100 satoshi per byte: 19,200 settles, and the loop throws at 22,600. |
| `BitcoinWallet.BuildTransaction` | examples/experimental/demo/basic_bitcoin/src/bitcoin_wallet.ts:132-163 | The loop itself, for any number of rounds: it ends as the specification says, settled, or goes on with the fee of the specification. |
| `ChunkedBody.ProcessChunkedBody` | src/experimental/lib/server.ts:248-279 | The loop returns the decoded body, throws as the source does, or is caught in a round without progress. |
| `ChunkedBody.DecodeEncoded` | src/experimental/lib/server.ts:248-279 | Decoding any framing of a payload gives the payload, whatever the chunk boundaries, the case and leading zeros of the sizes, the extensions, and whatever follows the zero chunk. |
| `ChunkedBody.DecodeChunks` | src/experimental/lib/server.ts:252-276 | Every sequence of framed chunks decodes to what follows it, behind their data. |
| `ChunkedBody.StandardIsRead` | src/experimental/lib/server.ts:259-259 | `parseInt` reads the standard hexadecimal spelling of every number, by division and the sixteen literal digits, in either case and with any leading zeros, as that number. |
| `ChunkedBody.NumberIsRead` | src/experimental/lib/server.ts:259-259 | Behind any white space and sign, with or without the prefix, the digits up to the first other character are read, and nothing after them. |
| `ChunkedBody.SizeLineValue` | src/experimental/lib/server.ts:258-259 | `parseInt` reads the number that a size line spells in literal hexadecimal digits, before any extension. |
| `ChunkedBody.TruncatedFails` | src/experimental/lib/server.ts:268-270 | A body cut anywhere inside the data of a chunk is refused. |
| `ChunkedBody.NoProgress` | src/experimental/lib/server.ts:252-276 | A round makes no progress if and only if the size line does not read as a number, or its negative size leads back to the start: otherwise the rest gets strictly shorter. |
| `ChunkedBody.HexDigitIsNotEnough` | src/experimental/lib/server.ts:259-259 | A size line that starts with a hexadecimal digit can still read as NaN and hang the loop: `0x`. |
| `ChunkedBody.IndexOfIsFirst` | src/experimental/lib/server.ts:253-253 | The line end found is the first one. |
| `ServerReply.AzleSocket.Write` | src/experimental/lib/server.ts:104-133 | Writes append, whatever kind of data they get; null and undefined reject the write and append nothing. |
| `ServerReply.AzleSocket.End` | src/experimental/lib/server.ts:135-188 | The reply made of the buffered bytes: cut after the first blank line, dechunked if the head asks for it, with the headers that are passed on. |
| `ServerReply.Respond` | src/experimental/lib/server.ts:104-188 | Any sequence of writes ends in the reply that one write of all bytes would get. |
| `ServerReply.CutAtBlankLine` | src/experimental/lib/server.ts:136-147 | Head and body are cut at the first blank line, whatever the body holds. |
| `ServerReply.ReplyBody` | src/experimental/lib/server.ts:143-151 | The body is passed on as it is, or dechunked exactly when the head has a transfer-encoding header in any case. |
| `ServerReply.ChunkedReply` | src/experimental/lib/server.ts:104-188 | Neither the boundaries of the writes nor those of the chunks show in the reply. |
| `ServerReply.PassedOnExactly` | src/experimental/lib/server.ts:166-179 | Exactly the headers other than content-length and transfer-encoding, in any case, are passed on. |
| `ServerReply.PassedOnInOrder` | src/experimental/lib/server.ts:166-179 | Headers are passed on one by one and in their order: what is passed on of two lists in a row is what is passed on of each. |
| `ServerReply.ReservedExactly` | src/experimental/lib/server.ts:168-179 | A header is reserved exactly if its name is content-length or transfer-encoding up to capitals. |
| `ServerReply.LowerIsWord` | src/experimental/lib/server.ts:143-145 | A name in lower case is a given word exactly if it is that word up to capitals, letter by letter of the alphabet. |
| `Teaser.JoinSplit` | docs/searcher.js:203-208 | Joining what was split by a separator gives the text back. |
| `Teaser.Weigh` | docs/searcher.js:203-232 | The two nested loops record the weighted words of the specification, and whether any is a search term. |
| `Teaser.WeightsExactly` | docs/searcher.js:209-226 | Sentence after sentence, every word that is not empty is recorded: with 40 if it is a search term, and if not, with 8 as the first of its sentence and with 2 after that. |
| `Teaser.TermsWeigh40` | docs/searcher.js:214-224 | A recorded word weighs 40 if and only if it is a search term. |
| `Teaser.WeighedLocated` | docs/searcher.js:228-231 | Every recorded offset is the true position of its word despite the nested splits, and no word is left out. |
| `Teaser.WeighedInOrder` | docs/searcher.js:203-232 | The words lie in the text in order, without overlap. |
| `Teaser.WindowWeights` | docs/searcher.js:244-257 | The incremental sums are the sums of the windows. |
| `Teaser.SentencesPositive` | docs/searcher.js:209-226 | Every weight is positive. |
| `Teaser.BestWindow` | docs/searcher.js:260-268 | The backward scan finds the last maximum unless every window weighs nothing. |
| `Teaser.ChooseWindow` | docs/searcher.js:238-271 | With a term found, the window chosen is the last one of maximal weight; otherwise the first. |
| `Teaser.Assemble` | docs/searcher.js:273-297 | Without its emphasis the teaser is the contiguous text from the first to the last word of the window, and exactly the characters inside terms are emphasised. |
| `Teaser.TeaserIsRead` | docs/searcher.js:273-297 | Read as HTML, the teaser of an escaped body shows the text of its window, emphasised exactly inside the search terms. |
| `Teaser.MakeTeaser` | docs/searcher.js:197-298 | All of it together, for every body, term test and word count. |
| `CandidNames.NameReads` | src/stable/lib/did_file/visitor/escape_candid_name.ts:58-100 | A reader of Candid names recovers a printed name, whatever follows it, if the name is an identifier that is no keyword, or its characters other than quotes and backslashes may stand in a text as they are, and recovers nothing otherwise. |
| `CandidNames.CandidNameReads` | src/stable/lib/did_file/visitor/escape_candid_name.ts:58-100 | A reader that follows the Candid grammar, all its escapes included, recovers a printed name, keywords, quotes and backslashes included, if the name has no control characters, and recovers nothing otherwise. |
| `CandidNames.ReadEscaped` | src/stable/lib/did_file/visitor/escape_candid_name.ts:80-100 | A text reads as what was printed exactly when its other characters are allowed as they are. |
| `CandidNames.NamesUnique` | src/stable/lib/did_file/visitor/escape_candid_name.ts:58-78 | Two names that print alike are the same name, keywords, quotes and backslashes included. |
| `CandidNames.IdCharsAre` | src/stable/lib/did_file/visitor/escape_candid_name.ts:61-65 | The characters of a bare name are exactly the 52 letters, the underscore and, after the first, the ten digits. |
| `CandidNames.HexExactly` | src/stable/lib/did_file/visitor/escape_candid_name.ts:80-100 | The reader takes exactly the 22 hexadecimal digits for what they are worth, as the escapes of the Candid grammar have it. |
| `CandidReader.CandidTypeReads` | src/stable/lib/did_file/visitor/visit/record.ts:11-24 | A reader of types after the core grammar of Candid, with its own tables of words and with any white space, recovers every printed type, whatever comes after it, up to the empty tuple, if no field name in it has control characters, and recovers nothing otherwise. |
| `CandidReader.TypeReads` | src/stable/lib/did_file/visitor/visit/opt.ts:1-16 | The same for any list of keywords that holds the words that begin a type, and any characters that texts let pass. |
| `CandidReader.PrintUnique` | src/stable/lib/did_file/visitor/visit/record.ts:11-24 | Two types have the same Candid text if and only if they are the same type, up to the empty tuple, which prints as the empty record. |
| `CandidReader.FieldReads` | src/stable/lib/did_file/visitor/visit/variant.ts:1-26 | A printed field of a record or variant is read back, variant fields without a type included. |
| `CandidReader.AllTypesRead` | src/stable/lib/did_file/visitor/extract_candid.ts:18-31 | A printed list of types is read back, with either separator and closing sign. |
| `CandidReader.TupleReads` | src/stable/lib/did_file/visitor/visit/tuple.ts:1-20 | A tuple is read as a tuple and never as a record with names, because the words that begin a type are quoted where they are names. |
| `CandidReader.FuncBodyReads` | src/stable/lib/did_file/visitor/visit/func.ts:1-78 | A printed function type is read back, with its arguments, results and annotations. |
| `CandidReader.SignatureUnique` | src/stable/lib/canister_methods/index.ts:373-385 | The comparison of printed signatures accepts exactly the equal parameter lists, up to the empty tuple. |
| `CanisterMethods.CanisterClassMeta.Register` | src/stable/lib/canister_methods/index.ts:138-332 | One registration takes the next number and records the method, or throws on a second definition or on different init parameters. |
| `CanisterMethods.CanisterClassMeta.RegisterAll` | src/stable/lib/canister_methods/index.ts:138-332 | The registrations of a class, in order, up to the first error. |
| `CanisterMethods.AcceptedExactly` | src/stable/lib/canister_methods/index.ts:146-331 | A list of registrations is accepted if and only if every two of them are compatible, and then the metadata is exactly the record of the list. |
| `CanisterMethods.AcceptancePermutes` | src/stable/lib/canister_methods/index.ts:146-331 | Acceptance does not depend on the order, of init and postUpgrade in particular. |
| `CanisterMethods.RecordPermutesExactly` | src/stable/lib/canister_methods/index.ts:146-331 | Every order of an accepted list gives the same metadata, up to the numbers of the methods, if and only if no query and update share a name. |
| `CanisterMethods.RecordPermutes` | src/stable/lib/canister_methods/index.ts:146-331 | The accepted metadata is the same for every order, up to the numbers of the methods, when no query and update share a name. |
| `CanisterMethods.SharedNameDependsOnOrder` | src/stable/lib/canister_methods/index.ts:193-217 | For every accepted list with a shared name there is another order with other parameter types. |
| `CanisterMethods.SwapChangesTypes` | src/stable/lib/canister_methods/index.ts:193-217 | Swapping a query and an update of one name changes the parameter types recorded for it. |
| `CanisterMethods.RegisteredRecords` | src/stable/lib/canister_methods/index.ts:175-330 | A further registration is accepted exactly if it is compatible with all before it, and extends the record by itself. |
| `CanisterMethods.InfosExact` | src/stable/lib/canister_methods/index.ts:186-212 | The query and update entries are exactly those methods, each with its own name, number and hidden flag, and composite only for a query declared so. |
| `CanisterMethods.SinglesAt` | src/stable/lib/canister_methods/index.ts:220-315 | Each single method is recorded under its own name and number. |
| `CanisterMethods.ParamTypesAt` | src/stable/lib/canister_methods/index.ts:193-217 | The type recorded for a query or update has its own parameters, its own result or none, and the query annotation exactly for queries. |
| `CanisterMethods.InitParamsAt` | src/stable/lib/canister_methods/index.ts:231-266 | The recorded init parameters are those of init and of postUpgrade, whichever came first. |
| `CanisterMethods.RejectedStaysRejected` | src/stable/lib/canister_methods/index.ts:396-405 | An error in a prefix is an error of the whole class. |
| `CallbackTables.Globals.Dispatch` | src/stable/lib/state.ts:182-264 | One action changes one entry of one table, created at need, and is appended to the log if actions are recorded. |
| `CallbackTables.Globals.HandleTwoWay` | src/stable/lib/ic_apis/call.ts:285-405 | A call puts its resolve and its reject callback under its own ids, and then `callRaw` accepts it or throws. |
| `CallbackTables.Globals.Settle` | src/stable/build/commands/build/wasm_binary/rust/stable_canister_template/src/ic/call_raw.rs:323-343 | The runtime invokes the callback it finds and deletes both. |
| `CallbackTables.CallPutsBoth` | src/stable/lib/ic_apis/call.ts:285-343 | A call changes exactly the entries `_resolve_` and `_reject_` with its uuid, bound to its own promise, and is pending exactly if its arguments are attached and its cycles are at least 0 and less than 2^128. |
| `CallbackTables.SettlingTakesBoth` | src/stable/build/commands/build/wasm_binary/rust/stable_canister_template/src/ic/call_raw.rs:323-343 | The end of a call invokes the callback under its key in the table that its outcome asks for, and deletes both its entries and no other. |
| `CallbackTables.Globals.TimerIsSet` | src/stable/lib/ic_apis/set_timer.ts:33-80 | Setting a timer puts its callback under the id the runtime has given. |
| `CallbackTables.Globals.ClearTimer` | src/stable/lib/ic_apis/clear_timer.ts:21-53 | Clearing a timer deletes its callback. |
| `CallbackTables.EveryRunIsFaithful` | src/stable/lib/ic_apis/call.ts:285-405 | After every interleaving of calls, accepted or not, settlements, timers set, fired, done and cleared: each pending call owns one resolve and one reject entry bound to its own promise, each live timer its callback, no other timer callback is there, and what the runtime invokes next is the callback of its own promise or timer. |
| `CallbackTables.TablesAreExact` | src/stable/build/commands/build/wasm_binary/rust/stable_canister_template/src/ic/call_raw.rs:41-51 | After every run the tables hold nothing but the entries of pending calls and live timers if and only if `callRaw` accepted every call: the cycles of each lay in 0 to 2^128 - 1, and its arguments could be read. |
| `CallbackTables.EventKeeps` | src/stable/lib/state.ts:200-264 | Every single event keeps the tables so. |
| `CallbackTables.NothingIsLeft` | src/stable/build/commands/build/wasm_binary/rust/stable_canister_template/src/ic/call_raw.rs:49-156 | Once nothing is pending or live, the tables are empty if and only if `callRaw` accepted every call of the run. |
| `CallbackTables.RefusedCallStays` | src/stable/lib/ic_apis/call.ts:285-343 | A call that `callRaw` refuses leaves both its entries for good, although nothing is pending for it. |
| `CallbackTables.TooFewOrTooManyCycles` | src/stable/build/commands/build/wasm_binary/rust/stable_canister_template/src/ic/call_raw.rs:49-51 | One call with -1 cycles, or with 2^128, does that. |
| `CallbackTables.RunIsReplayed` | src/stable/lib/state.ts:190-199 | Replaying the recorded actions from empty tables rebuilds the three tables, after any events. |
| `CallbackTables.TimerHasLastSet` | src/stable/lib/state.ts:218-264 | A timer id has a callback exactly when it was set and not deleted since, and then the one it was last set to. |
| `CallbackTables.TimerKeeps` | src/stable/lib/ic_apis/set_timer_interval.ts:32-82 | Timer events keep the tables faithful; an interval timer keeps its callback while it fires. |

## Left out

Weaker than the source:

- StableJsonTheorems.RoundTrip: assumes of JavaScript that bigint, principal and element conversions invert each other; the order in which objects list integer-like names, prototypes, shared and cyclic references, functions, symbols, `Date`, `Buffer`, objects with their own `toJSON` and kinds of arrays the source does not handle (`Uint8ClampedArray`) are not values of the model.
- StableJsonTheorems.BytesRoundTrip: for values whose text is assumed to read back: number spellings, escapes and UTF-8 are the host's, and so is the question which numbers are doubles. Custom replacers and revivers are left out.
- StableBTreeMaps.RunRefines: the stable memory is the ordered entries of `ByteStore`; serializers are total functions, so that an exception inside one is not modelled. Neither are memory ids, nor the branches for a missing runtime, which return `undefined`. `get` in the source returns `undefined` both for a missing key and for a stored `undefined`; the model tells them apart as `containsKey` does.
- HighlightTokenizer.Highlighter.Highlight: matching is an oracle that finds what is in the text, leftmost, and never earlier with fewer rules. The result says `StillRunning` after a given number of rounds, because the source's own limit only applies where a lexeme is kept as text. Languages with `subLanguage`, the relevance score and continuations are left out.
- HighlightPlacement.TreePlaces: for runs in which no end match ends the language itself. A keyword in a node is known by its kind; which words of a text are keywords is exact for each text emitted (`FlushedMarks`).
- HighlightBlocks.HighlightElement: without `useBR` and `tabReplace`. The markup is read as HTML by start and end tags alone, with its void elements; what a browser does beyond that (implied end tags, raw text elements) is left out.
- HighlightBlocks.DocumentIsHtml: for class names that need no escaping: the token tree puts them into the markup as they are, and the node streams escape them.
- TokenTree.Emitter.CloseNode: open nodes are a stack of unfinished nodes rather than shared references into the tree; a closed node enters its parent when it closes, and the result is the same tree.
- RegexPatterns.ShiftPreserves: single characters, classes and assertions are the engine's; lookbehind and named groups are left out, and so is the reading of `\N` as an octal escape where there is no such group.
- RuleJoiner.Join: each text is assumed to be that of its pattern: cut into the pattern's tokens, with no class or escape left open and no quantifier in front. Parsing tokens into a pattern is left out.
- BitcoinWallet.EndIsSettled: the size of a signed transaction is a function of the numbers of its inputs and outputs, growing in both, an input costing at least as much as an output; `Number` conversions are assumed exact.
- ChunkedBody.ProcessChunkedBody: bytes are characters, and `parseInt` skips only ASCII white space; a round that repeats itself for ever is the outcome `Hangs`.
- ServerReply.AzleSocket.End: the names of the headers are what the HTTP parser finds in the head; the Candid encoding of the reply is left out.
- Teaser.MakeTeaser: lower-casing keeps the length of a text, and the stemmer is a test of words.
- CandidReader.CandidTypeReads: services and recursive types, which print through named definitions, are left out; all maps of definitions are then empty. The reader knows no comments, no field numbers, no argument names and no names of types.
- CanisterMethods.CanisterClassMeta.RegisterAll: says nothing of the metadata after an error; what the callbacks do when called is left out.
- CallbackTables.EveryRunIsFaithful: uuids differ from those of calls still in the tables and timer ids are never given twice. The promise of a call and the callback of a timer are numbers. One-way calls have no callbacks and are left out; so is a call that traps, which undoes the whole execution.

Not modelled:

- The wrappers of single system calls (time, cycles, principals, certificates) and the network clients: they call code that is not here.
- `shouldUpgrade` and the parsing of requests: conditions on single headers.
- The language definitions of highlight.js and the compilation of modes: data.
- The rest of the search page, the examples' routes, the build and the command line: plumbing.
- Signing, addresses and scripts in the wallets; they enter through the size of the transaction.
- Overload detection of the decorators and the reply of a canister method: dispatch on types of arguments.
