# markov.c in Dafny

A model of the Markov-chain text generator in `markov.c`, with proofs about it.
The program reads a text and builds a table. Each key of the table is a bigram: two consecutive words. Its value is the list of words that followed that bigram in the text. The program then walks the table at random and prints a new text.

The model has three modules:

- `Tokenize` (tokenize.dfy) models the split at markov.c:112, `g_strsplit_set(in_string, " \n", -1)`.
  - The input is read as a C string: everything before the first NUL.
  - The string is split at every single space or newline, so two delimiters in a row give an empty piece.
  - The empty string gives no pieces at all.
- `Chains` (chains.dfy) models the table and its builder.
  - `Bigram` is the key. `Follower` is either `Word(w)` or `End`, which stands for the NULL sentinel.
  - `bigram_equal` and `bigram_hash` are modelled, with `g_str_hash` written out as the djb2 hash in 32-bit arithmetic.
  - `ChainTable` is a class whose `chains` field, a `map<Bigram, seq<Follower>>`, is updated in place by `AddWordToChain`.
  - `MakeChains` is the builder. Its loop is proved against the function `ChainsOf` of the kept words. The properties of the table are lemmas about `ChainsOf`:
    - keys are exactly the consecutive pairs;
    - follower multiplicity equals the triple count;
    - there is exactly one `End`;
    - every list is non-empty;
    - every word follower leads to a key.
- `Generate` (generate.dfy) models `makeText` as a state machine over `Gen` values.
  - The phases are `SelectingStart` (markov.c:158-162), `Emitting` (markov.c:167-191) and `Done`.
  - Randomness is a parameter `rand`: the k-th call `g_random_int_range(0, n)` returns `rand[k] % n`.
  - `sizeof(follows)` is a parameter `unit`.
  - Output is a list of events: `Text(w)` for a printed word, `Break` for a printed newline.
  - `MakeText` runs the two loops of the C function and is proved to end in the state `Run` computes from the initial state.
  - The invariant `Inv`, which every step keeps, gives the properties of the walk.

Two comments in markov.c describe the input more strictly than the code treats it, and the model follows the code:

- The comment at markov.c:114 asks for two words, but the test at markov.c:115 counts raw pieces of the split. So `"x\n"` (pieces `"x"` and `""`) is accepted.
- The comment at markov.c:126 says empty words are skipped, but only pieces from index 2 on go through that test (markov.c:123-128). markov.c:120-121 takes pieces 0 and 1 as the first window even when they are empty, so `" a b"` gives the key `("", "a")`.

## Model

| member | source | states |
|---|---|---|
| Chains.BigramEqual | markov.c:64-70 | two bigrams are equal exactly when both words are string-equal |
| Chains.BigramHash | markov.c:50-54 | the hash is the OR of the two word hashes: each word's hash is contained bitwise in it |
| Chains.HashRespectsEquality | markov.c:50-70 | bigrams that `bigram_equal` accepts have the same hash |
| Chains.HashSymmetric | markov.c:50-70 | `hash(a, b) == hash(b, a)`, although `(a, b)` and `(b, a)` are not equal when `a != b` |
| Chains.LookupAdded | markov.c:89-94 | after an append under `k`, the keys are the old keys plus `k`; `k`'s list is its old list (empty if absent) with the follower appended; every other list is unchanged |
| Chains.AddedFresh | markov.c:89-92 | appending under an absent key creates the one-element list |
| Chains.AddedExisting | markov.c:89-94 | appending under a present key extends its list |
| Chains.ChainTable.constructor | markov.c:109 | a new table is empty |
| Chains.ChainTable.AddWordToChain | markov.c:78-95 | the key is present afterwards; its list is the old list with the follower appended, or the one-element list if the key was new; all other keys and lists are unchanged |
| Chains.ChainTable.KeysAsArray | markov.c:155 | returns every key of the table exactly once, no other value, and `n_chains` equals the table size |
| Tokenize.CString | markov.c:112 | the C view of the input is its longest NUL-free prefix |
| Tokenize.Delimiters | markov.c:112 | the delimiters of a string are exactly its spaces and newlines |
| Tokenize.Pieces | markov.c:112 | `g_strsplit_set` gives no pieces exactly for the empty C string; otherwise one more piece than delimiters, none containing a space or newline, and rejoining them with the delimiters gives back the C string |
| Tokenize.SplitAll | markov.c:112 | the split of a non-empty C string yields at least one piece (`Pieces` handles the empty one) |
| Tokenize.SplitAllClean | markov.c:112 | no piece contains a space or a newline |
| Tokenize.SplitAllJoin | markov.c:112 | there is one more piece than delimiters, and rejoining the pieces with the delimiters gives back the input |
| Tokenize.PiecesTooFew | markov.c:112-118 | makeChains refuses the input exactly when its C string has no space and no newline |
| Tokenize.PiecesCount | markov.c:112-118 | the number of pieces is 0 for the empty string, otherwise the number of delimiters plus one |
| Tokenize.SplitAllWord | markov.c:112 | a string without delimiters is a single piece |
| Tokenize.SplitAllFirst | markov.c:112 | a word followed by a delimiter is split off as the first piece |
| Tokenize.CStringNoNul | markov.c:112 | a NUL-free string is read whole |
| Tokenize.SplitAllUnwords | markov.c:112 | splitting words joined by single spaces gives back the words, empty words included |
| Tokenize.UnwordsNoNul | markov.c:112 | NUL-free words joined by spaces form a NUL-free C string |
| Tokenize.PiecesOfUnwords | markov.c:112 | two or more words without delimiters or NUL, joined by single spaces, split back into exactly those words |
| Tokenize.WordRefused | markov.c:112-118 | a text without a space or newline is refused |
| Chains.NonEmpty | markov.c:126-128 | the result is no longer than the input, holds no empty string, and holds a string exactly when the input holds it non-empty |
| Chains.NonEmptyCount | markov.c:126-128 | every non-empty piece is kept as often as it occurs and no empty piece is kept: the multiset of the result is that of the input with `""` removed |
| Chains.NonEmptyAppend | markov.c:123-128 | the filter works piece by piece in input order: the kept pieces of `s + u` are those of `s` followed by those of `u` |
| Chains.NonEmptyCons | markov.c:126-128 | a piece in front is kept in front, or skipped when it is empty |
| Chains.NonEmptySingle | markov.c:126-128 | a single piece is kept exactly when it is not empty |
| Chains.NonEmptyAll | markov.c:126-128 | nothing is skipped when no piece is empty |
| Chains.Retained | markov.c:120-128 | the kept words are pieces 0 and 1 unchanged, then only non-empty pieces, all taken from the input |
| Chains.AddedNonEmpty | markov.c:89-94 | appending keeps every list non-empty |
| Chains.TransitionsNonEmpty | markov.c:123-135 | the loop leaves no empty follower list |
| Chains.TransitionsKeys | markov.c:123-135 | the loop adds as keys exactly the pairs of kept words that have a word after them |
| Chains.TransitionsCount | markov.c:123-135 | the loop adds word `w` under `(a, b)` once per occurrence of `a, b, w`, and adds no sentinel |
| Chains.TripleCountPositive | markov.c:123-135 | a triple's count is positive exactly when the triple occurs somewhere in the words |
| Chains.ChainsOfKeys | markov.c:123-139 | the keys of the built table are exactly the consecutive pairs of the kept words |
| Chains.FollowerMultiplicity | markov.c:123-139 | word `w` appears under `(a, b)` as many times as `a, b, w` occurs consecutively in the kept words |
| Chains.SingleSentinel | markov.c:137-139 | `End` occurs exactly once in the table, under the last pair of the kept words |
| Chains.ChainsOfWellFormed | markov.c:123-139 | the table has a key, every list is non-empty, and for every word follower `w` of `(a, b)`, `(b, w)` is a key, so the lookup at markov.c:171 never fails |
| Chains.ChainsOfWords | markov.c:123-139 | key words are kept words, and follower words are kept words from position 2 on |
| Chains.BuiltTable | markov.c:103-142 | an accepted text gives a walkable table whose first window is pieces 0 and 1, whose words are all pieces, and in which no follower is empty |
| Chains.Chained | markov.c:123-139 | the rest of the builder loop from window `(a, b)` only appends: every key of the table it starts from stays, with its old list as a prefix of the new one, and `(a, b)` ends up a key, since a word or `End` is always appended under the window |
| Chains.ChainedIsChainsOf | markov.c:120-139 | the builder loop, run from window `(a, b)` over the remaining pieces, produces the table of `a, b` followed by the non-empty pieces |
| Chains.TransitionsStep | markov.c:129-134 | one loop step appends the third word under the first pair |
| Chains.ThreeWordChains | markov.c:123-139 | three kept words `a, b, c` whose two pairs differ (`a != b` or `b != c`) give `(a, b) -> [c]` and `(b, c) -> [End]` |
| Chains.RepeatedWordChains | markov.c:123-139 | when the two pairs coincide, as for `a a a`, the single key `(a, a)` gets both followers: `[a, End]` |
| Chains.LeadingSpaceKey | markov.c:112-139 | `" a b"` splits into `"", "a", "b"`, and its table has the key `("", "a")` |
| Chains.TrailingNewlineAccepted | markov.c:112-139 | `"x\n"` splits into `"x", ""`, is accepted, and gives the single key `("x", "")` with `[End]` |
| Chains.LonelyRefused | markov.c:112-118 | the single word `lonely` is refused |
| Chains.HelloWorldPieces | markov.c:112-128 | the seven example words joined by spaces split back into those words, and all are kept |
| Chains.HelloWorldChains | markov.c:123-139 | the example's table has exactly its five keys, with `(world, foo) -> [bar, baz]` and `(foo, baz) -> [End]` |
| Chains.MakeChains | markov.c:103-142 | returns NULL exactly when there are fewer than two pieces; otherwise a fresh table equal to `ChainsOf` of the kept words |
| Generate.StartsUpperAscii | markov.c:160 | the start test `StartsUpper` holds exactly when the first character is one of the 26 ASCII capital letters; the empty word, whose first byte is the NUL, fails it |
| Generate.Draw | markov.c:173 | a draw from `[0, n)` is below `n` |
| Generate.SelectStep | markov.c:158-164 | a draw picks a key; emitting starts exactly when its first word begins with `A`-`Z`, which prints the key's two words and sets `line_length` to their printed width; otherwise nothing is printed |
| Generate.EmitStep | markov.c:167-191 | stops exactly when the drawn follower is `End`, printing only the final newline; otherwise the window becomes `(old second, w)` and `w` is printed, after a newline with `line_length` reset to the unit exactly when adding the unit passed 60, else with the unit added; `line_length` stays at most 60 when the unit is |
| Generate.Step | markov.c:158-191 | a step keeps the current bigram a key of a walkable table, so the lookup always succeeds, and uses one draw |
| Generate.Run | markov.c:149-193 | the walk ends `Done` or with every draw used; once `Done`, nothing further happens |
| Generate.RunStep | markov.c:158-191 | taking a step does not change where the walk ends |
| Generate.StepInv | markov.c:158-191 | each step keeps the walk invariant |
| Generate.RunInv | markov.c:149-193 | the whole walk keeps the walk invariant: the first printed word starts with an upper-case letter; every printed word is a table word; the last printed word is the window's second word; `line_length <= 60` once a follower was printed; a finished walk ends with a newline |
| Generate.KeyWordsArePieces | markov.c:120-139 | every word of a built table is a piece of the text |
| Generate.WalkOnBuiltTable | markov.c:149-193 | on a table built from a text, the walk prints only pieces of the text, starts with an upper-case word, keeps lines within 60 when the unit is, and ends a finished walk with a newline |
| Generate.HelloWorldWalk | markov.c:149-193 | on the example's table, draws `0, 0, 1, 0` print `Hello world foo baz` and a newline |
| Generate.HelloWorldSteps | markov.c:158-191 | the four steps of that walk on any table with the example's lists |
| Generate.MakeText | markov.c:149-193 | returns every key once as the sampling array, and ends in the state `Run` computes from the initial state, finished or out of draws |

## Left out

- `main` (markov.c:201-221) is left out: argument handling, the usage message, and reading the file are I/O.
- Printing is left out. What `g_printf` writes is modelled as a list of `Text` and `Break` events.
  - The initial `line_length` is computed as the printed width of `"%s %s "`, with one character counted as one byte.
- GLib hash-table internals are not modelled: buckets, stored hash values, and the collisions the OR hash causes. The table is a map with value-equal keys. `g_str_hash` is written as djb2 over the characters taken modulo 256 as signed chars.
- `g_random_int_range` is not modelled. It becomes the oracle `rand`, whose k-th value taken modulo `n` is the k-th draw.
- Generate.Run: does not model the unbounded `while (1)` loops. A walk that runs out of draws stops in the phase it is in. No termination is claimed for the C loops, and the start search does not terminate when no key starts with an upper-case letter.
- Generate.MakeText: does not model the aliasing of the window. markov.c:159 and 189-190 write the window into the table's own stored key, which corrupts that live key. The model keeps the window as a separate value, so it describes the walk the code evidently intends.
- Memory management is left out: the key `add_word_to_chain` allocates and leaks on re-insert, the follower strings that alias the split array, and the split array itself.
- `sizeof(follows)` is the parameter `unit` rather than the size of a `gchar *` on some machine. The model does not reason about real string widths when wrapping lines.
- Generate.EmitStep: does not model 32-bit wrap-around of the `guint` `line_length`. It cannot occur for texts shorter than 4 GiB.
- Strings are sequences of characters. Bytes outside ASCII and encodings are not modelled.
