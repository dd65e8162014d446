# got: a Dafny model of the diff, LCS and pretty-printing core

`got` is a Go testing library. When an assertion fails, it reports the
values it compared as pretty-printed text (`lib/gop`). When that text has
several lines, it adds a line diff (`lib/diff`). The diff is built on a
common subsequence of the two texts, which `diff.LCS` finds with a table
in the style of the longest-common-subsequence (LCS) algorithm. Its table
recurrence differs from the textbook one, so the subsequence is not
always a longest one (see Findings). `lib/lcs` holds a second LCS solver
based on longest increasing subsequences, and `lib/benchmark/myers`
holds the Myers shortest-edit-script diff it is compared against.

This project models those parts in Dafny and proves properties of them:

- **`lib/lcs`**: run-length compression of index lists and its inverse.
  Sequences of comparable items and the subsequence test. The pile-based
  solver `YadLCS`, which runs as a class over an arena of nodes with a
  free list. Its binary search, its node linking and its recycling are
  proved to keep an invariant, and its result is a common subsequence
  no longer than an independent LCS length.
- **`lib/diff`**:
  - the items of a diff (runes with a 4-byte hash, lines with a digest);
  - the table-based common subsequence `LCS` with its prefix and suffix
    reduction, and the textbook table under which the same backtrack
    gives a longest one;
  - the walk that turns two texts and their LCS into line tokens;
  - parsing tokens into lines and hunks;
  - the small helpers of `utils.go`.
- **`lib/gop`**:
  - colours;
  - styles, `StripANSI`, `VisualizeANSI` and `FixNestedStyle`;
  - `Format`'s indented layout;
  - the escape-rewriting state machine of `replaceEscaped`.
- **The top-level package**:
  - the messages of failed assertions (`assertions_error.go`);
  - the rewrite of the test flags (`DefaultFlags`);
  - snapshot file names;
  - the URL builder of the test server.

Go strings are modelled as `seq<char>` (runes). Where the Go code counts
bytes, the model uses UTF-8 widths. Functions the code calls but does
not own are parameters of the model:

- value dumping (`gop.F`, `gop.Plain`);
- the `readableStr` quoting, which depends on Go's `%#v`;
- md5, replaced by an injective `Digest`;
- the environment behind `NoStyle`.

`FixNestedStyle` is modelled as written (`FixNested`) and, beside it, with
a "paired" rule (`FixNestedPaired`): a style is closed before a nested one
only when the nested style has the same unset code, and the style under a
closed one is reopened only when the closing code also unsets it. The
paired rule gives the output that lib/gop/format_test.go expects, and the
doc comment's example comes out the same under both (see Findings).

A Go panic (an index out of range, a nil dereference) is modelled as an
explicit result (`None`, `NilDeref`, a `panics` flag) where the
operation is specified. The requires clauses listed under "Left out"
are the exceptions.

## Model

| member | source | states |
|---|---|---|
| LcsIndices.Decompress | lib/lcs/indices.go:41-55 | the result is the expansion of the compressed list (each negative entry becomes that many successors of the entry before it), and its length is the list's weight |
| LcsIndices.Compress | lib/lcs/indices.go:12-38 | the result is the compressed form; for non-negative indices it decompresses back to the input |
| LcsIndices.CompressRoundTrip | lib/lcs/indices.go:12-55 | decompressing the compression of any list of non-negative indices gives the list back |
| LcsIndices.NoAdjacentRuns | lib/lcs/indices.go:20-35 | a compressed list never holds two run entries in a row |
| LcsIndices.CompressExample | lib/lcs/indices.go:6-11 | the documented example `{1,2,3,4,5,10,20,21,22}` compresses to `{1,-4,10,20,-2}` and back |
| LcsIndices.CompressSpec | lib/lcs/indices.go:12-19 | the compression is no longer than its input, is empty exactly when the input is, and starts with the input's first index |
| LcsIndices.ExpandLength | lib/lcs/indices.go:41-55 | the length of an expansion is the sum of its entries' weights |
| LcsSequence.Sub | lib/lcs/sequence.go:13-19 | the result picks `xs[list[i]]` at each position, and increasing positions embed it in `xs` |
| LcsSequence.IsSubsequenceOf | lib/lcs/sequence.go:22-37 | the greedy scan answers true exactly when some increasing embedding of `xs` into `ys` exists |
| LcsSequence.SubsequenceExamples | lib/lcs/sequence.go:21-37 | "ab", "ac" and "bc" are subsequences of "abc"; "cb", "ba" and "ca" are not |
| LcsSequence.Histogram | lib/lcs/sequence.go:40-47 | the map has exactly the keys of `xs`, each with the ascending list of positions holding it |
| LcsSequence.PositionsExact | lib/lcs/sequence.go:40-47 | a position is listed under a key exactly when the item there has that key, and each list ascends |
| LcsSequence.Occurrence | lib/lcs/lcs.go:43 | one position list per item of `ys`: the positions of that item in `xs` |
| LcsSequence.NewChars | lib/lcs/sequence.go:64-70 | one key per rune, and the keys concatenate back to the string |
| LcsSequence.NewWords | lib/lcs/sequence.go:73-79 | one key per word, equal to the word |
| LcsSequence.NewLines | lib/lcs/sequence.go:82-94 | the lines of the line scanner plus an empty last line after a final newline: one more line than newlines, joining back to the text when it has no '\r' |
| LcsSequence.Leading | lib/lcs/sequence.go:97-101 | the leading run of letters or digits, up to the limit, stopping at the first other character |
| LcsSequence.WordTokensConcat | lib/lcs/sequence.go:97-101 | the word tokens concatenate back to the string, and each is up to 12 letters, up to 3 digits or one character |
| LcsSequence.RunesConcat | lib/lcs/sequence.go:104 | the rune tokens concatenate back to the string |
| LcsSequence.Split | lib/lcs/sequence.go:110-119 | runes for a string of at most 100 bytes, word tokens otherwise; `SplitConcat` states that nothing is lost |
| LcsSequence.SplitConcat | lib/lcs/sequence.go:110-119 | `Split` loses nothing: runes for strings of at most 100 bytes, word-shaped tokens otherwise |
| LcsSequence.DigitRunExample | lib/lcs/sequence.go:99 | a digit run longer than 3 is cut after 3 digits ("12345" gives "123", "45") |
| LcsLength.LcsLen | lib/lcs/lcs.go:35-42 | the length of a longest common subsequence of two prefixes (the textbook recursion), at most either prefix's length |
| LcsLength.EmbedBound | lib/lcs/lcs.go:35-42 | no common subsequence of the prefixes is longer than `LcsLen` |
| LcsLength.EmbedAttained | lib/lcs/lcs.go:35-42 | some common subsequence of the prefixes has exactly `LcsLen` items |
| LcsLength.CommonBound | lib/lcs/lcs.go:35-42 | any common subsequence of `xs` and `ys`, given by its positions in `xs`, is at most `LcsLen` long |
| Lcs.Find | lib/lcs/lcs.go:168-183 | the binary search returns one past the last pile top below `x` (the linear reference `Below`) and that pile's top node, or `Nil` |
| Lcs.Below | lib/lcs/lcs.go:168-183 | the reference answer: every top below the result is less than `x`, every top from the result on is not |
| Lcs.BelowSorted | lib/lcs/lcs.go:168-183 | on increasing tops, all tops before the answer are below `x` |
| Lcs.BelowIs | lib/lcs/lcs.go:168-183 | the answer is the unique split point between tops below `x` and the rest |
| Lcs.Result.constructor | lib/lcs/lcs.go:44 | the solver starts with no piles, no free nodes and no nodes |
| Lcs.Result.Link | lib/lcs/lcs.go:79-98 | the node gets its parent and index, folding consecutive indices into a negative run entry, and the parent's count goes up |
| Lcs.Result.New | lib/lcs/lcs.go:107-122 | reuses the last free node or appends a fresh one, then links it |
| Lcs.Result.Release | lib/lcs/lcs.go:124-134 | the corrected ancestor walk (see LcsRecycle): counts go down and freed ancestors join the free list, stopping at a node still on a pile |
| Lcs.Result.Replace | lib/lcs/lcs.go:124-141 | an unreferenced pile top is released and relinked in place; otherwise a new node takes its place on the pile |
| Lcs.Result.Push | lib/lcs/lcs.go:148-149 | a new pile is opened on top of the last one |
| Lcs.Result.Add | lib/lcs/lcs.go:143-166 | the state after one match is the move `AddMove` picks (open a pile, lower a top, or nothing), and the next search bound is returned |
| Lcs.Result.AddAll | lib/lcs/lcs.go:52-55 | processing all matches of one item of `ys`, from the last x position down, keeps the invariant and grows the piles by at most one |
| Lcs.Result.Lcs | lib/lcs/lcs.go:185-206 | the result is the chain under the last pile top, readable, and its expansion is a common subsequence |
| Lcs.ChainLength | lib/lcs/lcs.go:192-197 | counts the nodes on the chain from the last top to the root |
| Lcs.Collect | lib/lcs/lcs.go:199-205 | fills the index list from the end, giving the chain in root-to-top order |
| Lcs.YadLCS | lib/lcs/lcs.go:42-61 | the result decompresses to a common subsequence of `xs` and `ys`, no longer than `LcsLen`; a cancelled context gives the empty list |
| Lcs.CommonNoLonger | lib/lcs/lcs.go:42-61 | every common subsequence is at most `LcsLen` long |
| Lcs.LastPileCommon | lib/lcs/lcs.go:185-206 | under the invariant, the chain of the last pile top expands to a common subsequence |
| Lcs.ChainExpands | lib/lcs/lcs.go:70-98 | every live node's chain decompresses to the x positions its path witnesses |
| Lcs.SortedTops | lib/lcs/lcs.go:168-183 | every pile top is live and `node.x` reports the last x position of its chain |
| Lcs.AddMove | lib/lcs/lcs.go:143-166 | the decision of `add`: grow when the search reaches the end, lower a larger top, restart at pile 0, and only while enough items of `ys` remain |
| Lcs.AddMoveFits | lib/lcs/lcs.go:143-166 | a lowered top is replaced by a smaller x that still exceeds the top before it |
| Lcs.AddKeeps | lib/lcs/lcs.go:143-166 | applying the chosen move keeps the per-round invariant |
| Lcs.AddRound | lib/lcs/lcs.go:52-55 | one call of `add` keeps the round invariant and returns a valid search bound |
| Lcs.RoundEnds | lib/lcs/lcs.go:47-58 | at the end of an item's round the solver invariant holds for the next item |
| Lcs.ReplaceKeeps | lib/lcs/lcs.go:124-141 | replacing pile `i` with a smaller x keeps the invariant |
| Lcs.LinkKeeps | lib/lcs/lcs.go:79-98 | linking a free node under a live parent keeps every other node and adds a correct chain |
| Lcs.NewKeeps | lib/lcs/lcs.go:107-122 | taking a node from the free list or the arena and linking it keeps the invariant |
| Lcs.PopKeeps | lib/lcs/lcs.go:110-117 | the node `new` takes is not live and can be linked |
| Lcs.Unwind | lib/lcs/lcs.go:124-134 | the corrected walk changes only counts and the free list, never a node's index or parent |
| Lcs.UnwindReleases | lib/lcs/lcs.go:124-134 | the corrected walk keeps the invariant and the piles, only shrinks the live set and only grows the free list |
| LcsRecycle.UnwindAsWritten | lib/lcs/lcs.go:124-134 | the walk as written: it frees every ancestor whose count falls to zero, leaving list and arena size unchanged |
| LcsRecycle.ExampleValid | lib/lcs/lcs.go:42-61 | the piles of `YadLCS("aaaba", "aababa")` before item 4 of `ys` satisfy the solver invariant |
| LcsRecycle.RecycledPileTop | lib/lcs/lcs.go:127-134 | on that state the as-written walk frees node 1 while it still tops pile 1, and the corrected walk does not |
| Myers.Snake | lib/benchmark/myers/diff.go:165-169 | the diagonal loop stops where the reference slide `Slide` stops, on the same diagonal |
| Myers.SlideEqual | lib/benchmark/myers/diff.go:165-169 | every pair the slide passes is equal, and the pair where it stops is not |
| Myers.Entry | lib/benchmark/myers/diff.go:156-163 | the choice between moving down and moving right is the Go condition, and the frontier point is the slide from that entry |
| Myers.FarPath | lib/benchmark/myers/diff.go:148-180 | every frontier point after d steps is reached by an edit path with exactly d deletions and insertions |
| Myers.FarReaches | lib/benchmark/myers/diff.go:148-180 | no edit path with d edits gets further along its diagonal than the frontier |
| Myers.NoShorterPath | lib/benchmark/myers/diff.go:148-180 | when no frontier before step n reaches the end, every path to the end has at least n edits |
| Myers.StraightPath | lib/benchmark/myers/diff.go:147-148 | deleting all of `a` and inserting all of `b` reaches the end with N+M edits, so the loop over d finds the end |
| Myers.Enter | lib/benchmark/myers/diff.go:156-163 | the entry point read from `V` is the reference frontier point on diagonal k |
| Myers.Extend | lib/benchmark/myers/diff.go:152-180 | one step over the diagonals: either the end is reached on some diagonal, or `V` holds the whole frontier of this step and none of it is the end |
| Myers.ShortestEditSequence | lib/benchmark/myers/diff.go:141-187 | the trace holds one frontier per step up to the first step D that reaches the end, no earlier step reaches it, and later rows are empty |
| Myers.Retreat | lib/benchmark/myers/diff.go:121-131 | one step of the walk back returns the frontier point of the previous step that the forward step came from |
| Myers.RecordedChain | lib/benchmark/myers/diff.go:111-138 | the snakes the walk back records link the start to the end, one edit per snake |
| Myers.WalkStops | lib/benchmark/myers/diff.go:114-136 | when the walk back stops, it is on the first snake of the chain |
| Myers.Backtrack | lib/benchmark/myers/diff.go:111-138 | the snakes are the ends of a chain of single-edit steps from (0, 0) to the end; the other entries are empty |
| Myers.ScriptPath | lib/benchmark/myers/diff.go:35-36 | every list of operations that turns `a` into `b` is an edit path of the same cost |
| Myers.NoCheaperScript | lib/benchmark/myers/diff.go:35-36 | no list of operations turning `a` into `b` costs fewer edits than the steps the frontier needs to reach the end |
| Myers.Add | lib/benchmark/myers/diff.go:50-60 | a nil operation adds nothing; otherwise the operation is appended with its end in `a` and, for an insert, the lines of `b` it covers |
| Myers.DeleteRun | lib/benchmark/myers/diff.go:67-82 | the horizontal loop moves `x` to the snake's diagonal, the patched text stays the same and the cost grows by the lines deleted |
| Myers.InsertRun | lib/benchmark/myers/diff.go:83-95 | the vertical loop moves `y` to the snake's diagonal, and the patched text grows by the lines of `b` inserted |
| Myers.Follow | lib/benchmark/myers/diff.go:62-104 | one snake: the walk ends at the snake's point, and the operations so far patch the read part of `a` into `b[..y]` |
| Myers.Operations | lib/benchmark/myers/diff.go:37-106 | the operations turn `a` into `b`, each deletes or inserts at least one line (an insert with the lines of `b` it names), there are at most N+M of them, and no script is cheaper |
| Myers.Diff | lib/benchmark/myers/diff.go:22-25 | the same as `operations`: a shortest script that turns `before` into `after` |
| DiffSequence.CharHash | lib/diff/sequence.go:23-27 | four bytes, the big-endian code of the rune |
| DiffSequence.CharHashDecodes | lib/diff/sequence.go:23-27 | reading the four bytes big-endian gives the rune's code |
| DiffSequence.CharHashInjective | lib/diff/sequence.go:23-27 | two runes have the same hash exactly when they are equal |
| DiffSequence.DigestInjective | lib/diff/sequence.go:59-66 | two texts have the same digest exactly when they are equal |
| DiffSequence.NewLine | lib/diff/sequence.go:59-66 | a line keeps its text |
| DiffSequence.LineHash | lib/diff/sequence.go:59-66 | two lines have the same hash exactly when their texts are equal |
| DiffSequence.NewString | lib/diff/sequence.go:33-39 | one slot per byte: each rune sits at its first byte and the other bytes of a wide rune stay empty |
| DiffSequence.SlotsAscii | lib/diff/sequence.go:33-39 | on ASCII text, slot `i` holds rune `i` |
| DiffSequence.WideRuneSlot | lib/diff/sequence.go:33-39 | "é" gives a rune and an empty slot |
| DiffSequence.StringOf | lib/diff/sequence.go:42-48 | panics exactly when some slot is empty; otherwise the runes in order |
| DiffSequence.AsciiRoundTrip | lib/diff/sequence.go:33-48 | on ASCII text, `NewString` then `String` gives the text back |
| DiffSequence.NewText | lib/diff/sequence.go:77-89 | one line per scanner token, then an empty line after a final newline |
| DiffSequence.TextString | lib/diff/sequence.go:92-98 | panics exactly when some item is not a line; otherwise the lines joined with "\n" |
| DiffSequence.TextRoundTrip | lib/diff/sequence.go:77-98 | without '\r', the modelled lines of a text join back to it |
| DiffSequence.TextCounts | lib/diff/sequence.go:77-89 | "a" has 1 line, "a\n" 2, "a\n\n" 3 and "\na" 2 |
| DiffUtils.Min | lib/diff/utils.go:7-12 | the smaller argument |
| DiffUtils.EqNeq | lib/diff/utils.go:14-20 | `neq` is the negation of `eq`, and `eq` is an equivalence |
| DiffUtils.SequenceString | lib/diff/utils.go:23-41 | the empty string for no items; the texts concatenated when the first item's hash is its text; otherwise the texts joined with "\n" |
| DiffUtils.ShownRunes | lib/diff/utils.go:28-34 | for one-rune items the result has one character per item |
| DiffUtils.ShownLines | lib/diff/utils.go:36-40 | for lines without '\n', the result splits back into the items' texts |
| DiffLcs.EqualChars | lib/diff/lcs.go:123-125 | two runes are equal by hash exactly when they are the same rune |
| DiffLcs.EqualLines | lib/diff/lcs.go:123-125 | two lines are equal by hash exactly when their texts are |
| DiffLcs.Max | lib/diff/lcs.go:127-132 | the larger argument |
| DiffLcs.Sort | lib/diff/lcs.go:56-66 | swaps the lists exactly when, at some index below both lengths, `x`'s hash is greater than `y`'s (the loop returns at the first such index) |
| DiffLcs.AfterAsymmetric | lib/diff/lcs.go:59 | no two hashes are each greater than the other |
| DiffLcs.SortKeepsEqual | lib/diff/lcs.go:56-66 | lists that agree on their common length are not swapped |
| DiffLcs.PrefixLenSpec | lib/diff/lcs.go:30-36 | the common prefix length: items agree up to it and differ at it, unless a list ends |
| DiffLcs.SuffixLenSpec | lib/diff/lcs.go:40-49 | the common suffix length: items agree from it and differ just before it, unless a list ends |
| DiffLcs.ScaleDown | lib/diff/lcs.go:28-54 | the prefix and the suffix are the common ones, the middles are what remains of each list, and the pieces rebuild `x` |
| DiffLcs.CommonPrefix | lib/diff/lcs.go:30-36 | the loop finds the common prefix, bounded by both lists |
| DiffLcs.CommonSuffix | lib/diff/lcs.go:40-49 | the loop finds the common suffix |
| DiffLcs.PrefixScanAsWritten | lib/diff/lcs.go:30-31 | the scan bounded by `len(x)` only: it indexes past `y` exactly when `y` is shorter and agrees with `x` up to its end |
| DiffLcs.ScaleDownPanics | lib/diff/lcs.go:12-36 | `LCS(["a","b"],["a"])` keeps the order in `sort`, then scans past the end of `y` |
| DiffLcs.LcsTable | lib/diff/lcs.go:69-97 | the table satisfies the recurrence: without `longest` (the code), 1 more than the larger of the entries above and to the left on a match, the larger of the two otherwise; with `longest`, 1 more than the diagonal entry on a match |
| DiffLcs.TableMonotone | lib/diff/lcs.go:69-97 | under either recurrence, table entries never fall to the right or downwards, and are never negative |
| DiffLcs.LcsFromTable | lib/diff/lcs.go:100-121 | the backtrack yields a subsequence (by hash) of both prefixes, no longer than either |
| DiffLcs.LcsFromTableDrawn | lib/diff/lcs.go:100-121 | every item of the backtrack comes from `x` |
| DiffLcs.Lcs | lib/diff/lcs.go:12-23 | the result is a common subsequence of both lists that keeps their common prefix and suffix, and its items come from the inputs; it is not always a longest one (`ShortLcsAsWritten`) |
| DiffLcs.CommonWithEndsSymmetric | lib/diff/lcs.go:12-23 | being a common subsequence with the common ends does not depend on the order of the lists |
| DiffLcs.ShortLcsAsWritten | lib/diff/lcs.go:12-23 | on `LCS(["a","b"], ["b","a","b","a","a"])`, `sort` swaps the lists and `scaleDown` strips nothing; the backtrack over the code's table keeps one item, while `LcsLen` is 2 |
| DiffLcs.TableLcsLen | lib/diff/lcs.go:69-97 | with the textbook recurrence, each entry is `LcsLen` of the two prefixes up to it |
| DiffLcs.EntryLcsLen | lib/diff/lcs.go:85-91 | the textbook recurrence, applied to neighbours that are `LcsLen` values, gives `LcsLen` |
| DiffLcs.LongestFromTable | lib/diff/lcs.go:99-121 | over the textbook table, the backtrack from any corner is exactly `LcsLen` of the two prefixes long |
| DiffLcs.LongestCommon | lib/diff/lcs.go:99-121 | over the textbook table, the backtrack is a common subsequence and no common subsequence of `equal` items is longer, as the doc comment promises |
| LcsLength.LcsLenGrowX | lib/diff/lcs.go:85-91 | one more item of the first list raises `LcsLen` by 0 or 1 |
| LcsLength.LcsLenGrowY | lib/diff/lcs.go:85-91 | one more item of the second list raises `LcsLen` by 0 or 1 |
| LcsLength.LcsLenMatch | lib/diff/lcs.go:87-88 | at a pair of equal items, `LcsLen` is one more than without either |
| LcsLength.LcsLenStep | lib/diff/lcs.go:85-91 | `LcsLen` follows the textbook table recurrence |
| DiffToken.NumFormat | lib/diff/token.go:84-91 | the widths are the decimal lengths of the two line counts |
| DiffToken.NumFormatFits | lib/diff/token.go:84-91 | every line number up to the count fits the width |
| DiffToken.XNumLayout | lib/diff/token.go:88 | a deleted line's number is zero-padded to the old width, followed by blanks where the new number would be |
| DiffToken.YNumLayout | lib/diff/token.go:89 | an added line's number comes after blanks the width of the old number, zero-padded to the new width |
| DiffToken.SNumLayout | lib/diff/token.go:90 | a kept line shows both numbers, each zero-padded to its width |
| DiffToken.NumbersAligned | lib/diff/token.go:53-78 | every line-number token of a rendering has the same length |
| DiffToken.Group | lib/diff/token.go:61-76 | each line is three tokens: its number, its symbol and its text with "\n" |
| DiffToken.RenderLayout | lib/diff/token.go:51-81 | the rendering is three tokens per operation, group after group |
| DiffToken.TextsAppend | lib/diff/token.go:55-79 | a delete extends the old lines, an add the new lines, and a keep all three lists |
| DiffToken.WalkStep | lib/diff/token.go:55-79 | one step of the walk extends the rendering by that line's group and keeps the three prefix counts |
| DiffToken.DecidedSnoc | lib/diff/token.go:60-77 | the step follows the rule: delete when the old line differs from the next LCS line, else add when the new line differs, else keep |
| DiffToken.WalkDel | lib/diff/token.go:60-65 | the delete branch renders the old line with its old number |
| DiffToken.WalkAdd | lib/diff/token.go:66-71 | the add branch renders the new line with its new number |
| DiffToken.WalkSame | lib/diff/token.go:72-77 | the keep branch renders the LCS line with both numbers and advances all three pointers |
| DiffToken.WalkDone | lib/diff/token.go:55 | when the loop stops, the whole LCS has been walked |
| DiffToken.WalkTurn | lib/diff/token.go:56-78 | one turn of the loop keeps the invariant and advances `i` or `j` |
| DiffToken.Walk | lib/diff/token.go:51-81 | the tokens render a script that walks the LCS by the decision rule over prefixes of both texts' lines |
| DiffToken.EqualIff | lib/diff/lcs.go:123-125 | a line matches an LCS line exactly when their texts are equal |
| DiffToken.SelfLcs | lib/diff/lcs.go:12-23 | the LCS of a list with itself is the list |
| DiffToken.Tokenize | lib/diff/token.go:45-82 | the tokens render an edit script built by the decision rule over the LCS of both texts' lines; tokenizing a text against itself keeps every line |
| DiffToken.WalkSelf | lib/diff/token.go:45-82 | walking a text against itself keeps every line |
| DiffAst.ParseTokenLines | lib/diff/ast.go:32-51 | the parse as written: a nil dereference exactly when the first token is not a line number |
| DiffAst.ParsedPanics | lib/diff/ast.go:32-51 | the parse panics exactly when the tokens are non-empty and do not start with a line number |
| DiffAst.ParsedEmpty | lib/diff/ast.go:49-50 | no tokens give a list holding one nil line |
| DiffAst.ParsedLines | lib/diff/ast.go:32-51 | each line number opens a line numbered by its token position, the symbol sets its type, and the other tokens are its contents in order |
| DiffAst.RenderParsed | lib/diff/ast.go:32-51 | parsing the tokens of a rendered script gives one line per operation |
| DiffAst.TriplesParsed | lib/diff/ast.go:32-51 | token triples parse into one line per triple |
| DiffAst.ParseTokenHunks | lib/diff/ast.go:54-80 | a nil line makes Go panic; otherwise the hunks of the lines |
| DiffAst.HunksFilled | lib/diff/ast.go:54-80 | every hunk has a deleted or an added line |
| DiffAst.HunksLines | lib/diff/ast.go:54-80 | the hunks hold all deleted lines and all added lines, in order |
| DiffAst.HunksRuns | lib/diff/ast.go:54-80 | there is one hunk per maximal run of changed lines |
| DiffAst.NoChangeNoHunk | lib/diff/ast.go:54-80 | lines without changes give no hunks |
| DiffAst.From | lib/diff/ast.go:9-14 | the number of the hunk's first deleted line, or of its first added line when it deletes none; `HunkSpan` and `HunkBounds` state what it means |
| DiffAst.To | lib/diff/ast.go:16-21 | the number of the hunk's last added line, or of its last deleted line when it adds none |
| DiffAst.HunkSpan | lib/diff/ast.go:9-21 | on ordered lines, `From` is the first line number of the hunk and `To` the last |
| DiffAst.HunkBounds | lib/diff/ast.go:9-21 | every line of a hunk lies between `From` and `To` |
| GopColor.Code | lib/gop/color.go:37 | the SGR code `ESC[<n>m` |
| GopColor.ColorStr | lib/gop/color.go:32-38 | `None` leaves the text as it is |
| GopColor.ColorStrLayout | lib/gop/color.go:32-38 | otherwise the colour code, then the text, then the reset code |
| GopColor.RedText | lib/gop/color.go:37 | `ColorStr(Red, "x")` is `ESC[31mxESC[0m` |
| GopStyle.StyleTable | lib/gop/style.go:17-88 | the twenty styles `styleMap` holds are, in order, `Bold` to `Underline`, `Black` to `White` and `BgBlack` to `BgWhite`, each with its own set and unset codes |
| GopStyle.LookupSet | lib/gop/style.go:65-88 | reading `styleMap` under a style's own set code gives that style |
| GopStyle.MapStylesAreCodes | lib/gop/style.go:65-88 | a lookup gives the zero style or the style whose set code is the key, both codes being SGR codes |
| GopStyle.CodeAt | lib/gop/style.go:132 | the length of the `ESC[digits m` code at a position, or 0 |
| GopStyle.NextCode | lib/gop/style.go:156-161 | the next code at or after a position |
| GopStyle.NextCodeLeftmost | lib/gop/style.go:156-161 | no code starts between the position and the match, and none at all when there is no match |
| GopStyle.ReplaceStep | lib/gop/style.go:135-142 | the replacement spells out a code (as nothing or as `<digits>`) and copies any other character |
| GopStyle.ReplaceAppend | lib/gop/style.go:135-142 | replacing codes distributes over concatenation when the second part cannot complete a code of the first |
| GopStyle.ReplaceCode | lib/gop/style.go:135-142 | a leading code is replaced and the rest is processed after it |
| GopStyle.ReplaceNoCode | lib/gop/style.go:135-142 | text without codes is unchanged |
| GopStyle.ColorStrANSI | lib/gop/style.go:135-142 | `StripANSI` drops both codes of a coloured string, and `VisualizeANSI` spells them `<n>` and `<0>` |
| GopStyle.FirstNewline | lib/gop/style.go:110 | the first line break: empty, "\n" or "\r\n" |
| GopStyle.SplitCRLF | lib/gop/style.go:112 | one piece more than line breaks |
| GopStyle.Wrap | lib/gop/style.go:115-117 | each line wrapped in the style's set and unset codes |
| GopStyle.StylizeOne | lib/gop/style.go:105-120 | the text unchanged when styling is off or the style is zero; otherwise every line wrapped and rejoined with the first line break |
| GopStyle.Stylize | lib/gop/style.go:98-103 | the styles applied in order |
| GopStyle.StyledOneLine | lib/gop/style.go:105-120 | a text without line breaks is wrapped once |
| GopStyle.StyledAllNests | lib/gop/style.go:98-120 | on one line, several styles nest: their set codes in order, the text, their unset codes in reverse |
| GopStyle.StyledLines | lib/gop/style.go:105-120 | styling keeps the number of lines |
| GopStyle.ReplaceJoin | lib/gop/style.go:135-142 | replacing codes line by line is replacing them in the joined text |
| GopStyle.StripStyled | lib/gop/style.go:105-137 | `StripANSI` of a styled text is `StripANSI` of the text |
| GopStyle.FixNestedStyle | lib/gop/style.go:148-185 | the loop computes the specified rewrite: text between codes copied, each code pushed or popped with the unset and reset codes the stack calls for |
| GopStyle.StepTurn | lib/gop/style.go:166-179 | the three cases of one code: empty stack, closing the top, or nesting under it |
| GopStyle.StepCodes | lib/gop/style.go:166-179 | whatever a step emits consists of codes only |
| GopStyle.FixStrip | lib/gop/style.go:144-185 | fixing nested styles changes no visible text: `StripANSI` is the same before and after |
| GopStyle.FixNoCodes | lib/gop/style.go:155-159 | text without codes is unchanged |
| GopStyle.StripANSI | lib/gop/style.go:134-137 | every code removed; what that keeps is stated by `ColorStrANSI`, `StripStyled` and `FixStrip` |
| GopStyle.VisualizeANSI | lib/gop/style.go:139-142 | every code `ESC[n m` spelt `<n>`; stated by `ColorStrANSI` |
| GopStyle.FixNested | lib/gop/style.go:148-185 | the output of `FixNestedStyle` as written; the method computes it, and `FixStrip`, `FixNestedDoc` and `FixNestedTestAsWritten` state its properties |
| GopStyle.FixFromShift | lib/gop/style.go:155-183 | what the loop appends after a prefix depends only on the text after the prefix |
| GopStyle.PushPiece | lib/gop/style.go:174-178 | text, then a code that does not unset the innermost style: the text, the unset code when the rule calls for it, the code, then the rest with the code pushed |
| GopStyle.PopPiece | lib/gop/style.go:169-173 | text, then the unset code of the innermost style: the text, the code, the style under it when the rule calls for it, then the rest with the style popped |
| GopStyle.DocShape | lib/gop/style.go:144-185 | three nested styles that share their unset code come out one after another, whatever the text between the codes, under either rule |
| GopStyle.FixNestedDoc | lib/gop/style.go:144-147 | the doc comment's `<red>1<blue>2<cyan>3</cyan>4</blue>5</red>` becomes `<red>1</red><blue>2</blue><cyan>3</cyan><blue>4</blue><red>5</red>` |
| GopStyle.TestShape | lib/gop/style.go:148-185 | three nested styles inside a fourth with another unset code: as written the outer style is closed before the first inner one and reopened after the last; under the paired rule it is not |
| GopStyle.FixNestedTestAsWritten | lib/gop/format_test.go:229-242 | on the test's input the code gives `<41> 0 <49><31> 1 … 5 <39><41> 6 <49>`, which is not the expected string |
| GopStyle.FixNestedTestPaired | lib/gop/format_test.go:229-242 | under the paired rule the test's input gives the expected `<41> 0 <31> 1 … 5 <39> 6 <49>` |
| GopStyle.FixStripPaired | lib/gop/style.go:144-185 | the paired rule changes no visible text either |
| GopFormat.DefaultTheme | lib/gop/format.go:19-38 | the colour of each token kind: exactly the listed kinds are coloured, with SGR colour codes |
| GopFormat.NoTheme | lib/gop/format.go:41-43 | no kind is coloured |
| GopFormat.OneOf | lib/gop/format.go:112-119 | true exactly when the kind is in the list |
| GopFormat.DepthNonNegative | lib/gop/format.go:80-87 | on well-nested tokens the running depth is never negative |
| GopFormat.BalancedEndsAtZero | lib/gop/format.go:80-87 | on balanced tokens the depth returns to zero at the end |
| GopFormat.Indent | lib/gop/format.go:16 | `n` indent units of four spaces |
| GopFormat.Piece | lib/gop/format.go:91-106 | the output of one token fails exactly when a key or a closing token needs a negative indent |
| GopFormat.PlainPiece | lib/gop/format.go:91-106 | without colour, a non-key token other than a string starts with its literal, after its indent when it closes |
| GopFormat.WellNestedLayout | lib/gop/format.go:74-110 | well-nested tokens always lay out |
| GopFormat.LayoutStaysNone | lib/gop/format.go:74-110 | once the layout fails, it stays failed |
| GopFormat.Format | lib/gop/format.go:74-110 | the loop computes the layout: each token's piece at its depth, appended in order, with the default theme for a nil theme |
| GopFormat.DepthStep | lib/gop/format.go:82-87 | the loop's depth update gives the running depth |
| GopFormat.ReplaceEscaped | lib/gop/format.go:143-203 | the state machine's output and its `has` flag |
| GopFormat.NoBackslashUnchanged | lib/gop/format.go:156-198 | text without a backslash is copied and reports no escape |
| GopFormat.TrailingBackslashDropped | lib/gop/format.go:162-165 | a trailing backslash is held back and lost |
| GopFormat.EscapeFound | lib/gop/format.go:167-179 | a backslash followed by the escaped character, not preceded by a backslash, is reported |
| GopFormat.EscapesSound | lib/gop/format.go:167-179 | `has` is only set when the escape occurs |
| GopFormat.EscapedBackslashKept | lib/gop/format.go:176-182 | a doubled backslash is copied and does not escape the next character |
| GopFormat.SelfReplacement | lib/gop/format.go:143-203 | replacing an escape with itself gives the text back, up to a trailing backslash |
| AssertionsError.HasNewline | assertions_error.go:247-254 | some argument contains a newline |
| AssertionsError.J | assertions_error.go:240-245 | one paragraph per argument when some argument has a newline, plain concatenation otherwise; `JNewline` states its newline property |
| AssertionsError.K | assertions_error.go:102-108 | the keyword between ` ⦗` and `⦘ `, in red when colour is on; `KeywordOneLine` states it stays on one line |
| AssertionsError.Report | assertions_error.go:236-238 | the entry of `fns` for the kind applied to the details, or `None` where Go indexes past them; its messages are stated by the lemmas below |
| AssertionsError.Message | assertions_error.go:110-230 | the message of each kind, built from `j`, `k` and the dumped details |
| AssertionsError.JNewline | assertions_error.go:240-254 | `j`'s output has a newline exactly when one of its arguments does |
| AssertionsError.KeywordOneLine | assertions_error.go:102-108 | a keyword stays on one line, with or without colour |
| AssertionsError.EqOneLine | assertions_error.go:111-124 | a failed equality of one-line values reads `x ⦗not ==⦘ y` |
| AssertionsError.EqWithDiff | assertions_error.go:111-124 | with diffs on and a multi-line value, the report is one paragraph per value, keyword and diff |
| AssertionsError.NilOneLine | assertions_error.go:167-170 | the nil report on one line |
| AssertionsError.LenReport | assertions_error.go:203-207 | without colour, the length report is the keyword, the value, the second keyword and the length, run together on one line even when a value spans several |
| GotFlags.DefaultFlags | got.go:109-133 | the loop computes the rewrite: drop the default timeout, then add each flag whose name is not already set |
| GotFlags.WordRun | got.go:120 | the longest leading run of word characters |
| GotFlags.Key | got.go:129 | the part of a flag before its first '=' |
| GotFlags.FilteredMembers | got.go:111-116 | the filtered arguments are exactly the arguments other than the default timeout |
| GotFlags.NamesMembers | got.go:119-126 | the set names are exactly the names of `-test.` arguments |
| GotFlags.AddedMembers | got.go:128-132 | a flag is added exactly when its name is not set |
| GotFlags.AddedNames | got.go:128-132 | afterwards every flag's name is set |
| GotFlags.AddedNothing | got.go:128-132 | flags already set add nothing |
| GotFlags.Flagged | got.go:109-133 | the arguments without the default timeout, then each flag not yet set; `DefaultFlags` computes it and the lemmas above state its members |
| GotFlags.FlaggedStable | got.go:109-133 | applying the rewrite twice is applying it once |
| Snapshots.EscapeFileName | snapshots.go:88-103 | invalid characters replaced, spaces and dots trimmed, runs of dots collapsed; `EscapeClean` and `EscapeIdempotent` state the result |
| Snapshots.EscapeClean | snapshots.go:88-103 | an escaped name holds no invalid character, no leading or trailing space or dot, and no double dot |
| Snapshots.EscapeIdempotent | snapshots.go:88-103 | escaping an escaped name changes nothing |
| Snapshots.ReplaceOneForOne | snapshots.go:90-94 | each invalid character becomes '_' and the others stay |
| Snapshots.TrimClean | snapshots.go:97 | trimming leaves no space or dot at either end |
| Snapshots.CollapseClean | snapshots.go:100 | collapsing leaves no two dots in a row |
| Snapshots.SnapshotsFilePath | snapshots.go:24-26 | the escaped name under `.snapshots` with the `.txt` suffix; `SnapshotPathFlat` states its shape |
| Snapshots.SnapshotPathFlat | snapshots.go:24-26 | the path starts with ".snapshots/", ends with ".txt" and holds no other '/' |
| ServeUrl.Rooted | utils_serve.go:49-53 | the joined path starts with '/' |
| ServeUrl.RootedKeeps | utils_serve.go:49-53 | a path that starts with '/' is kept, and any other gets one in front |
| ServeUrl.RootedIdempotent | utils_serve.go:49-53 | rooting a rooted path changes nothing |
| ServeUrl.Url | utils_serve.go:48-55 | the host followed by the rooted path; `Rooted` and `RootedKeeps` state the path |
| ServeUrl.UrlOfNothing | utils_serve.go:48-55 | no path gives the host followed by '/' |
| Strings.ScanLinesJoin | lib/diff/sequence.go:77-89 | without '\r', the scanned lines join back to the text |
| Strings.ScanLinesCount | lib/diff/sequence.go:77-89 | a non-empty text has one more line than newlines |
| Strings.ScanLinesTrailingNewline | lib/diff/sequence.go:84-86 | a final newline gives an empty last line |

## Left out

- Myers.Operations: the contract does not promise that operations are merged into maximal runs. The Go loop opens a new operation per snake, so deletions from two snakes in a row stay two `Delete` operations (`a = [x1, x2, c]`, `b = [c]` gives two).
- Myers.Operations: Go's `*Operation` pointers, which `add` completes in place, are values in the model. The slice `solution` of length N+M is a sequence that grows by one per `add`.
- Myers.ShortestEditSequence: requires `a` and `b` not both empty. `operations` returns before calling it in that case, and Go would read past the one-element `V` otherwise.
- Myers.ShortestEditSequence: the trace is a sequence of copies of `V`, and a row after the last step is empty where Go leaves a nil slice. The frontier `V` is an `array`.
- Myers.Backtrack: takes `a` and `b` as ghost parameters, used only to state its contract.
- DiffLcs.Lcs: the result is a common subsequence with the common ends, not a longest one. The table recurrence `max(top, left) + 1` (lib/diff/lcs.go:85-88) is not the textbook one, and on `LCS(["a","b"], ["b","a","b","a","a"])` the backtrack keeps one item where ("a", "b") has two (`ShortLcsAsWritten`). The model follows the code; the textbook table is the `longest` case of `LcsTable`, and the diff built on `Lcs` relies only on the common-subsequence contract.
- Lcs.YadLCS: the result is proved a common subsequence no longer than `LcsLen` (the bound comes from `CommonNoLonger`). It is not proved to reach that length: the argument that the piles keep an optimal chain runs through the node arena that `Add`, `Unwind` and recycling rewrite in place, and is beyond this model.
- LcsSequence.NewLines: the line scanner's 64 KB limit on one line is not modelled. Go stops at the first longer line.
- DiffSequence.NewText: the same 64 KB limit is not modelled.
- DiffSequence.NewText: Go stores `sc.Bytes()`, a view into the scanner's buffer. A later scan that shifts the buffer overwrites lines stored before. The model gives each line its own text, so `TextRoundTrip` holds for the model but not for such inputs of some kilobytes.
- LcsSequence.Sub: requires every position in range, where Go panics on one that is not.
- LcsIndices.Compress: requires that a negative index comes only first and alone (`Compressible`). Go panics reading `c[j-2]` otherwise (lib/lcs/indices.go:23).
- LcsIndices.Decompress: requires `Readable`, a list whose first entry is not negative. Go panics on any other list, reading `idx[i-1]` at i = 0 (lib/lcs/indices.go:47).
- DiffAst.From: requires a hunk with a deleted or an added line, where Go panics on an empty one. `ParseTokenHunks` never builds an empty hunk (`HunksFilled`).
- DiffAst.To: the same requirement as `From`.
- AssertionsError.Report: returns `None` where Go panics on a details list too short for the kind. Its messages are stated through the `EqOneLine`, `EqWithDiff`, `NilOneLine` and `LenReport` lemmas, not on `Report` itself.
- DiffAst.ParseTokenLines: lib/diff/ast.go:46 appends to `buf.Contents`, a field `TokenLine` does not declare. The model appends to the line's token list.
- DiffSequence.Digest: md5 is replaced by an injective digest. Its order is not md5's, so `DiffLcs.Sort` may swap differently on lists that differ.
- Strings: only valid UTF-8 is modelled. Invalid bytes, which Go decodes as U+FFFD one byte at a time, are not.
- GopStyle.FixNestedStyle: follows the code, and the doc comment's example comes out as the comment says (`FixNestedDoc`). The one difference from the source's own promises is the test of lib/gop/format_test.go:229-242: there the code closes and reopens the background colour around the inner styles, where the test expects neither code (see Findings).
- GopStyle.StylizeOne: `NoStyle` is computed from the environment and the `tput` command. It is a parameter.
- GopFormat.Format: `readableStr` (lib/gop/format.go:126-140) depends on Go's `%#v` quoting. It is a parameter. A negative indent makes `strings.Repeat` panic, modelled as `None`.
- GopFormat.DefaultTheme: lib/gop/format.go uses `Comment` and `White`, which lib/gop/token.go and lib/gop/color.go do not declare. The model adds a `Comment` kind and gives `White` the SGR code 37, as lib/gop/style.go does.
- Value dumping (`gop.F`, `gop.Plain`, lib/gop/token.go) and the colour diff (`diff.Diff`, lib/diff/format.go) are parameters of the assertion messages.
- The context passed to `YadLCS` is modelled as the number of items of `ys` processed before it is cancelled.
- Reading and writing snapshot files, the HTTP server and `os.Args` itself are I/O and are left out. `DefaultFlags` takes the argument list and returns the new one.

## Findings

| source | as written | input that shows it | evidently intended | confidence | as-written member | corrected member |
|---|---|---|---|---|---|---|
| lib/lcs/lcs.go:127-134 | `replace` walks up from a released node and pushes each ancestor whose child count reaches 0 onto the free list. The count does not include the reference from `r.list`, so a node that still tops a pile can be freed and then reused by `new`. | `YadLCS("aaaba", "aababa")` at item 4 of `ys`: the walk frees node 1 while it tops pile 1 | stop the walk at a node that is a current pile top | not executed | LcsRecycle.UnwindAsWritten, LcsRecycle.RecycledPileTop | Lcs.Unwind, Lcs.Result.Release, Lcs.YadLCS |
| lib/diff/lcs.go:30-31 | the prefix loop of `scaleDown` is bounded by `len(x)` only and reads `y[i]` | `LCS(["a","b"], ["a"])`: `sort` keeps the order, and the loop reads `y[1]` | bound the loop by both lengths | not executed | DiffLcs.PrefixScanAsWritten, DiffLcs.ScaleDownPanics | DiffLcs.ScaleDown, DiffLcs.CommonPrefix, DiffLcs.Lcs |
| lib/diff/lcs.go:85-89 | a match adds one to the larger of the entries above and to the left, not to the diagonal entry, so entries overcount and the backtrack (lib/diff/lcs.go:99-121) can follow them away from a longest common subsequence | `LCS(["a","b"], ["b","a","b","a","a"])`: `sort` swaps the lists, nothing is stripped, and the backtrack over the table rows `[0,1] [1,1] [1,2] [2,2] [3,3]` returns `["a"]`, where `["a","b"]` is common | a match adds one to the diagonal entry, as the textbook recurrence the file links to does | not executed | DiffLcs.ShortLcsAsWritten | DiffLcs.LcsTable (with `longest`), DiffLcs.TableLcsLen, DiffLcs.LongestFromTable, DiffLcs.LongestCommon |
| lib/gop/style.go:164-179 | a code nested in the innermost style is always preceded by that style's unset code, and closing the innermost style always reopens the style under it, whatever their unset codes | the test of lib/gop/format_test.go:229-242: `<41> 0 <31> 1 <34> 2 <36> 3 <39> 4 <39> 5 <39> 6 <49>` gives `<41> 0 <49><31> 1 … 5 <39><41> 6 <49>`, where the test expects no `<49>` after ` 0 ` and no `<41>` after ` 5 ` | close and reopen an outer style only when its unset code is the nested style's (the paired rule) | not executed | GopStyle.FixNestedTestAsWritten, GopStyle.TestShape | GopStyle.FixNestedTestPaired, GopStyle.FixNestedDoc, GopStyle.FixStripPaired |
