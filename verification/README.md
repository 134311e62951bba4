# RustyLLM: a verified model of tokenizing, decoding and tool-call text

RustyLLM replaces simple algorithms by fast or stateful ones and relies on both giving the same
answers. This project models the fast forms branch by branch and proves that they do.

* **Merging.** The merge pass keeps its candidates in a priority queue and its symbols in a doubly
  linked list over arrays, with stamps that expose stale candidates. `FastMerge.MergeSymbols` proves
  that it leaves exactly what rescanning the list for the leftmost best pair leaves, for every list
  and every table, and bounds its work. `MergeQueue` holds the invariant: before every pop, the
  candidates that are not stale are exactly the mergeable neighbours of the live list.
* **Pre-tokenizing.** `Regex` is a small backtracking matcher. `TekkenSplitter` proves that the
  forward scans find what the matcher finds for the seven Tekken alternatives; `Splitters` and
  `QwenSplitter` do the same for the GPT-2 and Qwen3.5 rules. All splitters cut a text without losing
  any of it. `TekkenPieces` and `QwenPieces` say where they cut in terms of the characters around the
  cut, without the patterns.
* **Byte-level BPE.** `ByteLevelBpe` fixes the tokens of every text exactly, by the ranks of the rules
  (`MergesByRank`), and proves that decoding them returns the bytes of the text. `Utf8Stitching` proves that streaming the decoded bytes gives
  the same text however they are cut into tokens.
* **Decoding.** `SpeculativeDecoding` proves that drafting, verifying, rolling back, adapting the
  window and giving up leave tokens, text and streamed pieces as they are without any drafter.
  `GenerationLaws` says what the result of a generation is, without reference to any loop: which
  tokens, why it ends, which text and what is streamed; greedy decoding and session turns obey it,
  and it leaves one possible result.
  `SessionReuse` proves that a turn on a kept cache answers like a turn on an empty one, and
  `SavedLogits` says exactly when the one exceptional branch does. `PrefixCache` proves that the
  prompt cache holds the latest snapshots of the most recently used prompts, and `SharedPrompts`
  that a generation cannot tell whether its prompt was found there.
* **Parsers and selection.** JSON scanning and escaping, printing and reading tool calls in all
  layouts, the windowed stop search, top-k sampling, WordPiece. `ToolCallText` spells out what is
  read from arbitrary text around the markers, and `SamplingLaws` which token a draw falls on.

Class-shaped parts of the program (the stitcher, the caches, the decoder, the session) are classes
here, loops are loops, and each is proved against a function of its inputs or its old state; the
lemmas are about those functions. Forward passes are the abstract functions of
`LanguageModel.Model`: a step reads the rows before its position and the recurrent state, writes the
row at its position and folds the token into the state.

## Where the code differs from its documentation

* **Saved logits (src/runtime.rs:5631-5645).** When a session's cache already holds the whole prompt,
  the turn starts from the logits saved at the end of the turn before, although they need not be the
  prompt's. They followed all tokens processed by then; unless that turn ended with a forward pass
  its last draw has rewritten them in place; and if it processed nothing behind its own prompt they
  are only as right as those it started from. `SavedLogitsAreExactIff` proves that they answer right,
  whatever model, samplers and settings are in use, exactly if the prompt is all that was processed
  and the turn before either ended with a forward pass (it used up its tokens with room in the cache)
  or sampled without touching the logits and either processed more than its prompt or started right.
  Three conversations show the failures: `SamePromptTwice` gets another answer to the same prompt; in
  `SilenceThenAnswer` a stop token is penalized twice and loses; in `SilentFromThenOn` one wrong start
  is passed on from turn to turn. `Session.Turn` covers the branch, `Converse` says which turns are safe.
* **Escapes (src/runtime.rs:1003-1027).** `\b` and `\f` come out as the letters, and a surrogate pair as
  two replacement characters. `UnescapeIsStandardIff` proves that a string whose surrogates are paired
  is resolved as RFC 8259 says exactly if it uses none of them; `BackspaceIsMisread` and
  `EmojiIsMisread` are examples.
* **Array of calls (src/runtime.rs:983-1001).** Fields are found by the first textual occurrence of their
  name. `JsonArrayRoundTripIff` proves that calls come back with whatever ids they are given exactly if
  none of them is captured: no quoted `id` with a colon behind it is printed before the id field. A
  call named `id` may come back without its id (`NamedIdLosesItsId`), one whose arguments have an id
  comes back with that (`ArgumentsIdIsTaken`).
* **Byte fallback (src/tokenizer.rs:648-658).** A byte without a symbol in the vocabulary falls back to a
  `<0xXX>` token, which decodes to its six-character spelling. `TextsSurviveIff` proves when
  texts survive encoding, `CharacterSurvivesIff` when a character does.
* **Repetition penalty (src/sampling.rs:317-338).** The comment says logits are pushed toward zero.
  `PenaltyTowardZeroIff` proves that a penalty above one does so exactly to logits that are not
  negative; `NegativeIsPushedAway` is an example. A token is penalized once for each time it occurs
  in the window, as `ApplyRepeatPenalty` says.
* **Stop strings (src/runtime.rs:3446-3456).** If all stop strings are empty none is searched, although an
  empty string occurs everywhere (`EmptyStopsNeverStop`). Otherwise the output is cut at the first
  listed stop string that occurs, not at the earliest occurrence of any. `CutIsFreeIff` proves that
  what is left is free of all stop strings, for every output, exactly if the first listed one occurs
  in each of them; `EarlierStopRemains` is an example.
* **Byte budget (src/runtime.rs:806-817).** The prompt cache bounds snapshots by a budget of bytes, but counts
  every cell as one byte although it is a float of four. `HeldBytes` proves that a snapshot takes at
  most four times the budget, and when it takes no more than it; `CellsCountAsBytes` is an example.
* **Qwen3.5 white space (src/tokenizer.rs:1510-1520).** The documented pattern keeps the last white-space
  character for what follows, the code does not. `PretokenizeQwen35` proves which pattern the code
  matches, and `CutAlikeIff` that the documented one cuts a text alike exactly if no piece but the last
  is white space of several characters without a line end; `TwoSpacesAreCutDifferently` is an example.

## Model

| member | source | states |
|---|---|---|
| FastMerge.MergeSymbols | src/tokenizer.rs:738-845 | For every symbol list and every deterministic pair table, cyclic or with tied keys, the queue-driven pass leaves exactly the list of the rescanning loop; merges plus remaining symbols equal the input length and at most 3(n-1) candidates are ever queued |
| FastMerge.DrainQueue | src/tokenizer.rs:785-837 | Before every pop the live slots are a doubly linked list in ascending order, the fresh candidates are exactly its mergeable pairs, each once, and the final list is still the one the rescanning loop will leave; terminates by live slots, then queue length |
| FastMerge.Process | src/tokenizer.rs:785-837 | A popped candidate is dropped if stale, otherwise applied and its slot offered to both neighbours; either way list and queue stay exact |
| FastMerge.MergeStep | src/tokenizer.rs:785-837 | An accepted candidate at the front of the queue is one step of the rescanning loop, and the two new offers make the queue exact again |
| FastMerge.ApplyIfFresh | src/tokenizer.rs:786-812 | The five staleness tests accept exactly the fresh candidates; the in-place rewrite of symbol, stamp, liveness and links is the abstract one |
| FastMerge.EmptyQueueIsDone | src/tokenizer.rs:785-845 | Once the queue is empty, no adjacent pair of the live list can merge |
| FastMerge.SeedQueue | src/tokenizer.rs:762-783 | The initial queue holds exactly the mergeable pairs of the untouched list |
| FastMerge.Retain | src/tokenizer.rs:839-845 | Dropping the consumed slots leaves the live symbols in list order |
| MergeQueue.PopMax | src/tokenizer.rs:664-682 | Pop removes a candidate that every other is at most equal to, by key and then by smaller left slot |
| MergeQueue.FrontIsLeftmostBest | src/tokenizer.rs:664-682 | A fresh maximum of an exact queue is the leftmost pair of maximal key of the live list |
| MergeQueue.ApplyKeepsLinks | src/tokenizer.rs:802-812 | Unlinking the right slot keeps prev and next mutually inverse along the ascending live slots |
| MergeQueue.ApplyMergesContents | src/tokenizer.rs:802-812 | On the list of live symbols the in-place rewrite is one merge |
| MergeQueue.ApplyKeepsQueued | src/tokenizer.rs:802-836 | After a merge and its two offers every fresh candidate is queued exactly once with its current key and symbol, and every older one that touches the rewritten slot is stale |
| MergeQueue.DropStale | src/tokenizer.rs:786-800 | Dropping a stale candidate keeps the queue exact |
| ReferenceMerge.NaiveMerge | src/tokenizer.rs:1994-2015 | The loop that rescans and removes computes the reference function |
| ReferenceMerge.LeftmostBestDecidesStep | src/tokenizer.rs:1994-2015 | Whichever way the leftmost pair of maximal key is found, merging it is the next step of the reference |
| ReferenceMerge.MergeAllKeeps | src/tokenizer.rs:738-845 | A property kept by every single merge is kept by the whole pass |
| Utf8.LossyIsValid | src/tokenizer.rs:864-907 | Lossy decoding with maximal-subpart U+FFFD substitution always yields well-formed text and is the identity on well-formed text (Unicode Standard section 3.9, Table 3-7) |
| Utf8.CharacterLengthIsExact | src/tokenizer.rs:864-907 | A character is found at the front of bytes exactly if a prefix of them is well formed, and then it is that prefix |
| Utf8.SubpartIsMaximal | src/tokenizer.rs:864-907 | The replaced subpart is the longest prefix that some well-formed sequence begins with, or one byte |
| Utf8.PartialIsProperPrefix | src/tokenizer.rs:847-863 | What may be held back is a proper prefix of a well-formed sequence, and every non-empty such prefix may be |
| Utf8.LossyShowsPieces | src/tokenizer.rs:864-907 | Lossy decoding shows the characters of the bytes as they are and one U+FFFD for each longest beginning of a character, or else single byte, between them; there is one such division |
| Utf8.EncodeOfDecode | src/tokenizer.rs:864-907 | Every well-formed sequence is the encoding of the scalar value its bits spell (RFC 3629, section 3) |
| Utf8.DecodeOfEncode | src/tokenizer.rs:1794-1820 | The bits of an encoded character spell it |
| Utf8Stitching.Utf8Stitcher.Push | src/tokenizer.rs:864-898 | Pushing a chunk releases all decided text and keeps as pending only an incomplete, completable character |
| Utf8Stitching.Utf8Stitcher.Flush | src/tokenizer.rs:900-907 | Flushing releases the lossy form of what is pending and leaves nothing |
| Utf8Stitching.StitchIsFinal | src/tokenizer.rs:864-898 | Released text is never revised: with any continuation, the one-shot decode is the released text followed by the decode of the pending bytes and the continuation |
| Utf8Stitching.ChunkingIndependent | src/tokenizer.rs:847-907 | For any bytes cut into any chunks, all pushes and the flush concatenate to the one-shot lossy decode |
| Utf8Stitching.DecodeStream | src/tokenizer.rs:847-907 | The streaming object run over any chunks gives the one-shot lossy decode of their concatenation |
| TekkenSplitter.PretokenizeTekken | src/tokenizer.rs:925-1052 | The pieces are exactly the successive first matches of the seven alternatives under backtracking; the `TekkenPieces` rows say what they are in characters |
| TekkenSplitter.PieceEnd | src/tokenizer.rs:943-1046 | At every position the forward scans end where the backtracking matcher ends |
| TekkenSplitter.FirstWord | src/tokenizer.rs:945-991 | Trying both word cores behind a lead character before trying either without one gives the answer of the pattern, whose alternatives come in the other order |
| TekkenSplitter.ScanLowerCore | src/tokenizer.rs:955-977 | Giving upper-case characters back one at a time finds the matcher's first success of upper*lower+ |
| TekkenSplitter.FirstLines | src/tokenizer.rs:1022-1035 | White space ended by line ends matches up to the last line end of the run |
| TekkenSplitter.FirstGap | src/tokenizer.rs:1036-1043 | White space with lookahead gives back one character before a non-space, and fails if that leaves none |
| TekkenSplitter.TekkenAlwaysMatches | src/tokenizer.rs:925-1052 | Some alternative matches at every position and consumes something, so the fallback step is never taken |
| TekkenPieces.PiecesKeepCase | src/tokenizer.rs:932-991 | In no piece of any text does a capital Latin letter follow a small one directly |
| TekkenPieces.CaseBoundary | src/tokenizer.rs:935-991 | A run of small Latin letters ends where a capital follows |
| TekkenPieces.CapitalsThenSmall | src/tokenizer.rs:935-991 | Capitals and the small letters behind them are one piece |
| TekkenPieces.SmallLettersEndWord | src/tokenizer.rs:935-977 | Letters that are no small Latin ones, a small Latin letter and all letters up to the next capital are one piece, with one character before them that is neither letter, digit nor line end |
| TekkenPieces.CapitalsAlone | src/tokenizer.rs:979-989 | Capitals up to the end of the letters are one piece |
| TekkenPieces.CapitalsAreLeftOver | src/tokenizer.rs:962-977 | Without a small Latin letter a word ends behind its last letter that is no capital, and the capitals behind that are left over |
| TekkenPieces.DigitStandsAlone | src/tokenizer.rs:993-996 | A digit that is no letter is a piece of its own |
| TekkenPieces.SymbolsWithLineEnds | src/tokenizer.rs:998-1020 | Symbols take one space before them and all line ends and slashes behind them |
| TekkenPieces.CutBehindLastLineEnd | src/tokenizer.rs:1022-1035 | White space with a line end is cut behind the last one |
| TekkenPieces.LastSpaceIsLeft | src/tokenizer.rs:1036-1043 | Other white space leaves its last character to what follows, if it has two |
| Regex.EndsAreMatches | src/tokenizer.rs:925-1052 | The matcher tries exactly the ends of the matches of a pattern, no matter in which order |
| Splitters.SplitPartitions | src/tokenizer.rs:925-1052 | The matches of a pattern that always matches are non-empty and concatenate to the text |
| Splitters.PretokenizeGpt2 | src/tokenizer.rs:1523-1597 | The pieces are the successive first matches of white space with a run of letters, of digits or of other symbols behind it, or white space at the end |
| Splitters.FirstSpaced | src/tokenizer.rs:1523-1597 | Because white space is apart from letters, digits and symbols, the matcher never gains by giving it back |
| QwenPieces.SpaceThenRun | src/tokenizer.rs:1523-1597 | A GPT-2 piece is all white space and all letters, or all digits, or all other characters behind it |
| QwenSplitter.PretokenizeQwen35 | src/tokenizer.rs:1055-1100 | The pieces are the successive first matches of the documented pattern without its lookahead, partition the text, and leave every numeric character that is no word character alone |
| QwenSplitter.Qwen35PieceEnd | src/tokenizer.rs:1067-1098 | At every position the forward scans end where the matcher ends |
| QwenSplitter.ContractionEnd | src/tokenizer.rs:1442-1460 | Trying the suffixes in the program's order finds what the pattern's order finds |
| QwenSplitter.MatchedAlikeIff | src/tokenizer.rs:1510-1520 | The two patterns disagree at a position exactly if longer white space without a line end stands there before something else |
| QwenSplitter.CutAlikeIff | src/tokenizer.rs:1055-1100 | The documented pattern cuts a text alike exactly if no piece but the last is longer white space without a line end |
| QwenSplitter.TwoSpacesAreCutDifferently | src/tokenizer.rs:1510-1520 | Two spaces before a letter stay together, where the documented pattern leaves one to the word |
| QwenPieces.ContractionStandsAlone | src/tokenizer.rs:1442-1460 | An apostrophe with s, t, m, d, re, ve or ll in either case is a piece of its own, even before more letters |
| QwenPieces.LettersAndMarks | src/tokenizer.rs:1462-1484 | All letters and marks in a row are one piece, with one character before them that is neither letter, digit nor line end |
| QwenPieces.NumberStandsAlone | src/tokenizer.rs:1067-1098 | A digit outside a word is a piece of its own |
| QwenPieces.PunctuationWithLineEnds | src/tokenizer.rs:1486-1507 | Punctuation takes one space before it and all line ends behind it |
| QwenPieces.CutBehindLast | src/tokenizer.rs:1509-1521 | White space with a line end is cut behind the last one |
| QwenPieces.SpaceIsKeptTogether | src/tokenizer.rs:1509-1521 | Other white space is one piece, whatever follows |
| Splitters.SplitGemma4Pieces | src/tokenizer.rs:1600-1620 | The pieces partition the text and alternate between line feeds only and no line feed, so every run is maximal |
| ByteAlphabet.BuildByteMaps | src/tokenizer.rs:1794-1820 | The two byte tables are total on bytes and inverse to each other; a visible byte is its own character and the others are numbered from U+0100 on |
| ByteAlphabet.WellKnownCharacters | src/tokenizer.rs:1794-1820 | The space is U+0120 and the line feed U+010A |
| ByteLevelBpe.FromMetadata | src/tokenizer.rs:129-174 | The tables built from metadata are valid; the merge table holds a pair exactly if some usable rule names it, with the rank and symbol of the last such rule |
| ByteLevelBpe.ReadMerges | src/tokenizer.rs:146-174 | Reading the rules in order tabulates exactly the usable ones, the last winning |
| ByteLevelBpe.NumberVocabulary | src/tokenizer.rs:140-144 | Every entry is numbered, names its own text, and of equal entries the last wins |
| ByteLevelBpe.Tokenizer.EncodeGpt2Bpe | src/tokenizer.rs:450-509 | Each piece becomes its whole-word token, or its byte symbols merged by rank, lowest first and leftmost of equals; under all three splitters the tokens decode to the bytes of the text if each byte of the text has a symbol, or each piece is a whole word or has |
| ByteLevelBpe.Tokenizer.EncodePretoken | src/tokenizer.rs:463-507 | A pre-token becomes its whole-word token if allowed and present, otherwise its byte symbols merged by rank, lowest first and leftmost of equals |
| ByteLevelBpe.Tokenizer.LowestRankMergesFirst | src/tokenizer.rs:497-504 | If a pair's rank is below that of every other adjacent pair with a rule, or equal and further left, the pass merges it first |
| ByteLevelBpe.Tokenizer.MergesByRankIff | src/tokenizer.rs:497-504 | What merging the lowest rank again and again leaves is what the pass returns, and nothing else is; without a rule for any pair the list stays as it is |
| ByteLevelBpe.Tokenizer.FallbackIsByByte | src/tokenizer.rs:648-658 | Each byte becomes its own fallback token |
| ByteLevelBpe.Tokenizer.MergingKeepsText | src/tokenizer.rs:497-504 | No merge pass over any table read from metadata changes what a symbol list decodes to |
| ByteLevelBpe.Tokenizer.PiecesIdsDecode | src/tokenizer.rs:450-509 | Decoding the tokens of pieces gives what the symbols of each piece mean, in order |
| ByteLevelBpe.Tokenizer.KnownPiecesDecode | src/tokenizer.rs:450-509 | Pieces that are whole words or have symbols for their bytes mean the bytes of the text |
| ByteLevelBpe.Tokenizer.TextsSurviveIff | src/tokenizer.rs:450-509 | Without whole words, every text survives encoding, however it is cut, exactly if all bytes of all characters have symbols |
| ByteLevelBpe.Tokenizer.CharacterSurvivesIff | src/tokenizer.rs:470-496 | One character survives encoding exactly if it is looked up as a whole word or all bytes of its encoding have symbols |
| ByteLevelBpe.Tokenizer.EncodePiece | src/tokenizer.rs:648-658 | A piece becomes its token or else one fallback token for each byte that has one |
| ByteLevelBpe.Tokenizer.DecodeTokenBytes | src/tokenizer.rs:345-360 | The loop over a token's characters computes its decoded bytes |
| ByteLevelBpe.Tokenizer.CharacterDecodes | src/tokenizer.rs:345-360 | A character that stands for a byte decodes to that byte and any other to its encoding; a token outside the vocabulary decodes to nothing |
| ByteLevelBpe.EncodeThenStream | src/tokenizer.rs:450-509 | Encoding a text and streaming the decoded tokens returns the text |
| WordPiece.Vocabulary.EncodeWord | src/tokenizer.rs:589-645 | A word appends the ids of its greedy segmentation, which spell the marked word, or exactly one unknown id; earlier output is untouched |
| WordPiece.Vocabulary.SegmentationSpells | src/tokenizer.rs:589-645 | The ids spell the text and each is the longest vocabulary match at its place |
| WordPiece.Vocabulary.GreedyIsUnique | src/tokenizer.rs:589-645 | Any ids that are longest matches end to end are the segmentation |
| WordPiece.Vocabulary.CapIsHarmless | src/tokenizer.rs:256-260 | Limiting the window to the longest vocabulary entry never changes the match found |
| SpeculativeDecoding.Generate | src/runtime.rs:3371-3500 | With any drafter, drafts, verdicts, window changes and moment of giving up, tokens, text and streamed pieces of greedy decoding from a processed prompt equal those of the plain loop, which `GenerationLaws` determines |
| SpeculativeDecoding.Decoder.Run | src/runtime.rs:3394-3478 | The decode loop ends with the progress of plain decoding |
| SpeculativeDecoding.Decoder.VerifyBatch | src/runtime.rs:3772-4104 | A round that continues leaves target cache, recurrent state and logits, and an attached assistant's, exactly those of prompt plus emitted tokens, and emits at least one; one that stops has reached the plain outcome; one that falls back emitted nothing |
| SpeculativeDecoding.Decoder.VerifyBatched | src/runtime.rs:3862-4005 | Verification in one pass and rollback to any rejected index restore both models exactly |
| SpeculativeDecoding.Decoder.AcceptPrefix | src/runtime.rs:3878-3977 | The longest agreeing prefix is emitted, then the target's own token; accepted and rejected guesses add up to the drafted ones |
| SpeculativeDecoding.Decoder.Recover | src/runtime.rs:3926-3974 | After a rejection the snapshot, the replayed prefix and the target's token leave target and assistant as if only those had been processed |
| SpeculativeDecoding.Decoder.AcceptOneByOne | src/runtime.rs:4007-4085 | Token-by-token verification keeps the target in step with what is emitted |
| SpeculativeDecoding.Decoder.VerifySequentially | src/runtime.rs:4007-4103 | The sequential form gives the same guarantees as the batched one |
| SpeculativeDecoding.Decoder.Draft | src/runtime.rs:3811-3859 | Drafting leaves the assistant having seen all but the last drafted token, and the embedded head's first token is the target's own choice |
| SpeculativeDecoding.Speculation.Adapt | src/runtime.rs:4155-4221 | The window grows by one after a fully accepted batch, shrinks by one otherwise, stays within its bounds, and drafting is given up exactly under the stated counts or a timing verdict |
| SpeculativeDecoding.Speculation.CatchUp | src/runtime.rs:3950-3971 | After a rejection the assistant is exactly in step again |
| SpeculativeDecoding.Speculation.Tally | src/runtime.rs:3884-3902 | Each verdict is counted so that accepted and rejected guesses will settle against the drafted ones |
| SpeculativeDecoding.Prepare | src/runtime.rs:3664-3770 | A drafter starts in step with the prompt and with a valid window, or is not used |
| LanguageModel.KVCache.Rewind | src/runtime.rs:3926-3971 | Going back to a prefix needs no row repair, and restores a recurrent state from the snapshot by replaying the kept tokens |
| LanguageModel.KVCache.VerifyBatch | src/runtime.rs:4107-4153 | One pass over a draft leaves what the single steps leave, with the logits after each prefix |
| LanguageModel.KVCache.PrefillPrompt | src/runtime.rs:3530-3620 | Prefilling a suffix leaves the cache of the whole sequence and its last logits |
| LanguageModel.Model.RowsOfPrefix | src/runtime.rs:3926-3974 | Later tokens never rewrite earlier rows |
| PlainDecoding.EmitText | src/runtime.rs:4223-4253 | Searching only the trailing window gives the output, pieces and stop decision of searching the whole output; the output is cut at the first listed stop string that occurs |
| GenerationLaws.PlainIsGeneration | src/runtime.rs:3394-3500 | Greedy decoding: every token has the largest logit behind the prompt and the tokens before it and is no stop token; generation goes on as long as there is room and no stop string; the text is what all tokens decode to, cut at a stop string if a further token completed one, and the streamed pieces are the text without the part that token added |
| GenerationLaws.TurnIsGeneration | src/runtime.rs:5698-5760 | A turn obeys the same law, every token being drawn from the logits behind the ones before it, with the last 64 tokens and the generator as the draw before left it |
| GenerationLaws.OneGeneration | src/runtime.rs:3394-3500 | The law leaves one list of tokens and one text |
| GenerationLaws.WholeText | src/runtime.rs:3492-3500 | A generation that no stop string ended returns the one-shot decoding of all its tokens, and its streamed pieces are the same text |
| GenerationLaws.PlainIsFree | src/runtime.rs:3446-3456 | No stop string is left in the output if the first listed one occurs in all of them |
| GenerationLaws.EmitShows | src/runtime.rs:4223-4253 | Emitting a token shows what all tokens so far decode to, up to the stop string if there is one |
| GenerationLaws.GreedyTurnIsPlain | src/runtime.rs:5698-5760 | A turn on a new session whose sampler always takes the largest logit is greedy decoding |
| PlainDecoding.PendingIsCompletable | src/runtime.rs:3492-3500 | However plain decoding ends, what is held back is an incomplete, completable character or nothing |
| PlainDecoding.PushRecentToken | src/runtime.rs:553-567 | The repetition window is always the tail of all tokens |
| PlainDecoding.WindowIsLast | src/runtime.rs:553-567 | The repetition window is the last 64 tokens, or all if they are fewer |
| SessionReuse.Session.Turn | src/runtime.rs:5596-5664 | A turn answers as on an empty cache whatever the cache held, unless it starts from saved logits; then it answers as from those. It says which logits it saves: those behind everything processed if it used up its tokens with room in the cache, otherwise what its last draw left |
| SessionReuse.Converse | src/runtime.rs:5546-5762 | Over any run of turns with options of their own, each is answered as if the session were new whose prompt is not wholly contained in the previous prompt and answer, or is all of it while the saved logits are known to follow it, which is tracked from turn to turn |
| SessionReuse.Session.Reuse | src/runtime.rs:5606-5620 | The reused prefix is one whose rows and recurrent state the cache really holds; a token sampled at the limit and never processed is not reused |
| SessionReuse.Session.Prefill | src/runtime.rs:5626-5656 | All branches leave the cache of the whole prompt; the logits are the prompt's unless saved ones are taken |
| SessionReuse.Session.Decode | src/runtime.rs:5698-5760 | The turn's loop follows the cold turn from its starting logits and leaves prompt plus emitted tokens cached, all but at most the last processed |
| SessionReuse.Session.Round | src/runtime.rs:5698-5748 | One round draws, emits and processes a token, or ends the turn with the logits the draw left |
| SessionReuse.Session.Reset | src/session.rs:61-76 | Resetting forgets tokens, logits and window and clears a recurrent state, leaving a valid empty session |
| SavedLogits.SavedLogitsAreExactIff | src/runtime.rs:5631-5645 | Over everything a turn may leave, saved logits answer right for every model, sampler and setting exactly if the prompt is all that was processed and the turn before ended with a forward pass, or only read the logits and processed more than its prompt or started right |
| SessionReuse.LeftIsRight | src/runtime.rs:5757-5758 | What a turn leaves follows the processed tokens after a final forward pass, and also if its sampler only reads and it processed more than its prompt or started right |
| SavedLogits.SamePromptTwice | src/runtime.rs:5631-5645 | On one session the same prompt gets another answer the second time, on a new one it would not |
| SavedLogits.SilenceThenAnswer | src/runtime.rs:5631-5645 | Under a repetition penalty a turn ends with the stop token and the same turn again answers a token |
| SavedLogits.SilentFromThenOn | src/runtime.rs:5631-5645 | The same prompt three times: the second and third turn stay silent, although before the third exactly the prompt has been processed and nothing rewritten |
| SessionReuse.LongestCommonPrefix | src/runtime.rs:5371-5373 | The result is a common prefix, and no longer one exists |
| PrefixCache.SharedPrefixCache.Insert | src/runtime.rs:791-837 | A prompt of 1 to the allowed number of tokens, in a plain cache, within the budget, becomes the most recent entry in place of an older one of the same tokens, the least recently used one falls out; any other changes nothing |
| PrefixCache.SharedPrefixCache.Restore | src/runtime.rs:751-787 | A hit returns the logits of the latest accepted insert, overwrites exactly its rows and promotes it; it succeeds whenever the cache has room and is of the plain kind, and never for a cache of another kind; a miss or an unusable entry leaves the cache's rows alone |
| PrefixCache.SharedPrefixCache.Clear | src/runtime.rs:744-746 | Clearing forgets every snapshot |
| PrefixCache.PromoteKeeps | src/runtime.rs:751-837 | Using a snapshot keeps keys distinct, order by last use, size within capacity, and everything missing used before everything kept |
| PrefixCache.HitRestoresActiveRows | src/runtime.rs:772-778 | What was stored of the first positions comes back cell by cell and every cell behind them is unchanged, however long the two caches are |
| PrefixCache.HeldBytes | src/runtime.rs:806-817 | Every snapshot takes at most four times the budget, and no more than the budget exactly if four bytes a cell fit |
| PrefixCache.CellsCountAsBytes | src/runtime.rs:806-817 | A snapshot of eight bytes is kept under a budget of two |
| SharedPrompts.GenerateShared | src/runtime.rs:3270-3500 | Whether the prompt is found in the shared cache or processed, and with any drafter, tokens, text and pieces are those of plain decoding, and every snapshot the cache holds stays what processing its prompt leaves |
| SharedPrompts.LookUp | src/runtime.rs:3345-3360 | A hit leaves rows, recurrent state and logits as processing the prompt would |
| SharedPrompts.Keep | src/runtime.rs:3362-3368 | What is inserted behind a processed prompt is true of it |
| SharedPrompts.SpelledReadsBack | src/runtime.rs:820-833 | Rows laid out in layers are read back unchanged |
| StopSearch.WindowSearchIsComplete | src/runtime.rs:3446-3456 | If the output was free of stop strings, searching any window that reaches back far enough finds the same stop string at the same place as searching everything |
| StopSearch.FindStop | src/runtime.rs:4235-4247 | The windowed search of one step equals the search of the whole output |
| StopSearch.TrailingCharBoundaryStart | src/runtime.rs:569-576 | The window start is the last character boundary at least the wanted distance from the end |
| StopSearch.NothingListedMeansFree | src/runtime.rs:3446-3456 | Nothing is found exactly if no stop string occurs |
| StopSearch.CutIsFreeIff | src/runtime.rs:3446-3456 | What is left of a cut output is free of all stop strings, for every output, exactly if the first listed one occurs in each of them |
| StopSearch.EarlierStopRemains | src/runtime.rs:3446-3456 | An output that keeps the second listed stop string because the first one is cut behind it |
| PlainDecoding.EmptyStopsNeverStop | src/runtime.rs:3446-3456 | If all stop strings are empty no token stops the generation, although a search would find one at the start |
| JsonScan.JsonValueEnd | src/runtime.rs:928-980 | The flag-driven loop computes the scanner function |
| JsonScan.ValueEndIsExact | src/runtime.rs:928-980 | For every JSON object, array or string (RFC 8259 sections 4, 5 and 7) behind any white space, with any text before and after, the index reported is the one just past it |
| JsonScan.CutOffTextHasNoEnd | src/runtime.rs:978-980 | A text that ends inside such a value has no end |
| JsonScan.BareValueEnds | src/runtime.rs:956-979 | A number or name ends before the next comma or closing bracket, and has no end at the end of the text |
| JsonScan.ValuePasses | src/runtime.rs:943-976 | Inside a container every value, at any depth and whatever its strings contain, is read over without leaving the container |
| JsonText.PushJsonString | src/runtime.rs:1113-1127 | The loop writes the escaped form between quotes |
| JsonText.UnescapeJsonString | src/runtime.rs:1003-1027 | The cursor loop computes the unescaping function |
| JsonText.EscapeRoundTrip | src/runtime.rs:1003-1127 | Unescaping undoes escaping for every string |
| JsonText.ScannerSkipsEscaped | src/runtime.rs:928-1127 | The scanner applied to an escaped string with any text behind it stops just after the closing quote |
| JsonText.EscapedIsBody | src/runtime.rs:1113-1127 | The escaped form is a legal string body |
| JsonText.StandardUndoesEscape | src/runtime.rs:1113-1127 | By RFC 8259 the escaped form denotes the text |
| JsonText.HexDigitsInOrder | src/runtime.rs:1016-1020 | The sixteen digits, the letters in either case, have their values, and no other character has one |
| JsonText.UnescapeIsStandardIff | src/runtime.rs:1003-1027 | A body whose surrogates are paired is resolved as the standard says exactly if it uses no pair, backspace or form feed escape, and comes out longer by one character per pair |
| JsonText.BackspaceIsMisread | src/runtime.rs:1003-1027 | The shortest body resolved differently |
| JsonText.EmojiIsMisread | src/runtime.rs:1003-1027 | An escaped emoji comes out as two replacement characters |
| ToolCalls.ParseMistralToolCalls | src/runtime.rs:1035-1086 | The reading loop computes the reader function in both branches; a text without a marker is returned unchanged, without calls |
| ToolCalls.PushMistralToolCalls | src/runtime.rs:4998-5012 | Printing appends marker, name, optional id and arguments of each call in order |
| ToolCalls.ToolCallRoundTrip | src/runtime.rs:1035-1086 | Parsing printed prose and any calls returns the prose, trimmed if there are calls, and the same calls in order with their names and their arguments as sent, whatever markers or braces strings contain; with their ids in the V11 layout and with empty ids in the V13 layout |
| ToolCallText.MarkedCallIsRead | src/runtime.rs:1045-1082 | Behind any text without a marker, a call whose name, id and arguments have white space around them is read with all three trimmed, and reading goes on behind it |
| ToolCallText.ArrayTextIsRead | src/runtime.rs:1048-1056 | Behind any text without a marker, an array or object is read object by object, and reading goes on behind it |
| ToolCallText.ProseIsTrimmed | src/runtime.rs:1037-1043 | The text before the first marker is shown without the white space around it |
| ToolCallText.TrimIs | src/runtime.rs:1041-1066 | Trimming takes away the white space at both ends and nothing else |
| ToolCallText.PrintedCall | src/runtime.rs:4998-5012 | Each call is printed as marker, name, the marked id in the V11 layout if there is one, and the marked arguments |
| ToolCallText.NoArguments | src/runtime.rs:1135-1146 | Empty or blank arguments go on the wire as an empty object |
| ToolCallText.OtherArguments | src/runtime.rs:1135-1146 | Arguments that begin neither like an object nor like an array go on the wire as a string that means them |
| ToolCallText.MissingFields | src/runtime.rs:1097-1104 | An object without a name is no call; without an id or arguments it is one with an empty id or empty object |
| ToolCalls.CollectJsonToolCalls | src/runtime.rs:1089-1107 | The collecting loop reads every brace-delimited object of the array in order |
| ToolCallArray.PushJsonToolCalls | src/runtime.rs:4972-4997 | The printing loop writes one array of one object per call |
| ToolCallArray.ArrayIsReadBack | src/runtime.rs:1035-1107 | Parsing printed prose and an array of calls with any names and ids returns the trimmed prose and as many calls in order, with their names and arguments and what is read for their ids |
| ToolCallIds.JsonArrayRoundTripIff | src/runtime.rs:1035-1107 | The calls come back the same, whatever ids they are given, exactly if in none of them a quoted `id` with a colon behind it is printed before the id |
| ToolCallIds.JsonArrayRoundTrip | src/runtime.rs:1035-1107 | Calls of which nothing is captured come back with their ids |
| ToolCallIds.IdSurvivesIff | src/runtime.rs:983-991 | One printed call is read with whatever id it is given exactly if nothing in front of the id is taken for it |
| ToolCallIds.StringIsDecided | src/runtime.rs:983-991 | Behind a captured colon, the text up to the quote that opens the id field decides what is read |
| ToolCallArray.ObjectIsRead | src/runtime.rs:1097-1104 | A printed object is read as one call with its name and arguments |
| ToolCallArray.ArgumentsAreFound | src/runtime.rs:994-1001 | The arguments are found behind their own colon even if the name spells their field name |
| ToolCallArray.ObjectsAreFound | src/runtime.rs:1089-1106 | Exactly the printed objects are found, one after the other |
| ToolCallIds.NamedIdLosesItsId | src/runtime.rs:983-991 | A call named `id` whose arguments are an object or array comes back without its id |
| ToolCallIds.ArgumentsIdIsTaken | src/runtime.rs:983-991 | A call with arguments that have the id `u1` comes back with that id, whatever its own |
| ToolCalls.CutOffCallIsDropped | src/runtime.rs:1030-1086 | A further call cut off at any character is dropped and costs none of the others |
| ToolCalls.ReadPrintedCalls | src/runtime.rs:1047-1083 | Reading undoes printing call by call and goes on behind the last |
| ToolCalls.FindMarker | src/runtime.rs:1035-1046 | A printed marker is the first one: none can begin in the prose and end in the marker |
| ToolCalls.ArgumentsAreJsonIff | src/runtime.rs:1129-1146 | Arguments go on the wire as a JSON value exactly if they do not begin like an object or array without being one |
| ToolCalls.PaddedContainerIsTrimmed | src/runtime.rs:1135-1146 | An object or array goes on the wire as it stands, without the white space around it |
| Sampling.TopCandidates | src/sampling.rs:233-249 | The insertion loop leaves exactly the first k entries of the ranking of all logits |
| Sampling.RankingIsStableSort | src/sampling.rs:233-249 | The ranking lists every logit once, larger first, equal ones by index |
| Sampling.BubbleUpLast | src/sampling.rs:308-315 | Swapping the last candidate up inserts it into the ranked list before it and touches nothing behind |
| Sampling.InsertWithinBound | src/sampling.rs:242-248 | Comparing with the last of the k kept candidates only loses nothing |
| SamplingLaws.SampleTopK | src/sampling.rs:215-305 | The token is the one on which the draw falls: among the k best, weighed by the exponential of the distance to the best divided by the temperature, those that weigh at least the min-p part of the best while the mass before them is within the top-p part of the whole; without a finite logit, or for k = 1, it is the greedy token |
| SamplingLaws.SampledIsUnique | src/sampling.rs:251-305 | The draw falls on one token and no other |
| SamplingLaws.KeptAreBest | src/sampling.rs:233-249 | The kept candidates are the k best tokens in order, larger logits first, then smaller numbers, non-finite ones last |
| Sampling.TokenIsPicked | src/sampling.rs:251-305 | A token of the k best is returned exactly if the draw picks its position |
| Sampling.NucleusIsExact | src/sampling.rs:264-289 | The two truncations keep exactly the positions whose weight reaches the floor and whose preceding mass is within top-p |
| Sampling.PrefixIsExact | src/sampling.rs:277-289 | A position is kept by the mass truncation exactly if the mass before it does not exceed the limit |
| Sampling.LandingIsExact | src/sampling.rs:294-305 | A draw lands on a position exactly if it lies in that position's stretch of the kept mass |
| Sampling.HeadIsExact | src/sampling.rs:264-275 | The min-p head is exactly the best candidate with all whose weight reaches the floor |
| Sampling.WeightsDescend | src/sampling.rs:255-266 | Weights descend along the ranking |
| Sampling.ApplyRepeatPenalty | src/sampling.rs:317-338 | Each logit is penalized as many times as its token occurs in the window, and no other changes |
| SamplingLaws.PenaltyIsPower | src/sampling.rs:317-338 | A positive logit is divided by the penalty once for each occurrence, any other finite one multiplied by it |
| SamplingLaws.NonFiniteIsRuledOut | src/sampling.rs:317-338 | A logit that is not finite is ruled out by one occurrence |
| Sampling.PenaltyNeverHelps | src/sampling.rs:317-338 | A penalty of at least one never raises a finite logit nor changes its sign |
| Sampling.PenaltyTowardZeroIff | src/sampling.rs:317-338 | A penalty above one, applied at least once, moves a logit toward zero exactly if it is not negative |
| Sampling.NegativeIsPushedAway | src/sampling.rs:317-338 | Minus one penalized by two is minus two |
| Logits.ArgmaxFiniteToken | src/runtime.rs:578-588 | The verifier's argmax is the first largest finite logit, or 0 |
| Logits.SamplerArgmax | src/sampling.rs:341-358 | The sampler's argmax, which starts differently, is the same function |
| Logits.ArgmaxIsUnique | src/sampling.rs:341-358 | Being the first largest finite logit determines the index |

## Left out

- Forward passes, kernels and their accuracy: `LanguageModel.Model` abstracts them, and a batched pass is assumed to compute what single steps compute.
- Floats: finite ones are read as reals, so rounding, signed zero and the order of NaNs play no part; merge keys are integers.
- Integer widths: slots, stamps and positions are unbounded. `VersionsBounded` keeps every stamp within the number of merges, so 32-bit stamps cannot wrap before the list is that long.
- The binary heap itself: `PopMax` takes a maximum out of a sequence, as the ordering requires.
- Character classes: alphabetic, numeric, white-space and combining-mark tables are parameters.
- Timing statistics: their verdict to stop drafting is an arbitrary choice, as is the presence of a batched verifier. The other counters of a generation are not modelled.
- Repetition penalties other than 1 in speculative decoding: the verifier takes a plain argmax while the ordinary loop penalizes recent tokens, so the two differ by design; the `recent` window of that loop is therefore not modelled there. Sessions model it.
- The greedy token that a resident device computes together with the forward pass.
- Sliding-window rings, bf16 storage and caches on a device: caches are linear here.
- Prompts longer than the cache, and a token limit of zero, which src/runtime.rs:338 rejects.
- SessionReuse.Session.Turn: the counters of served and evaluated tokens are not modelled, nor are empty vocabularies or samplers that resize the logits.
- `SessionStore`, the locked map of sessions, and the environment variables that size the prompt cache.
- PrefixCache.SharedPrefixCache.Restore: layers are sequences replaced as a whole, and saturating products are exact products. Snapshots and caches agree on layer count and widths, which the loaded model fixes.
- SharedPrompts.GenerateShared: the decoder's rows and the cache's layers, one memory in the program, are two views that `LayOut` and `TakeUp` change between.
- QwenSplitter.PretokenizeQwen35: contractions ignore ASCII case only, as in the code; the case folding of a full pattern engine would also accept the long s.
- ToolCalls.PushMistralToolCalls: markers are text here, while the program may emit them as single control tokens; positions count characters rather than bytes.
- JsonText.UnescapeIsStandardIff: excludes lone surrogate escapes, to which RFC 8259, section 8.2, gives no meaning.
- ByteLevelBpe.Tokenizer.DecodeTokenBytes: models the byte-level mode; the fallback tokens of the other modes are not decoded here.
- Sampling without top-k, temperature zero aside, and the quality of the random numbers.
- SentencePiece and Gemma 4 encoding beyond its splitter, WordPiece normalization, the other decoding modes, and hashing.
- The catalog, skills, GGUF reader, server, command line and web assembly glue.
