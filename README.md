# Playfair cipher, modelled in Dafny

This project models the Playfair cipher engine of `playfair_cipher.py` and proves properties of the model. The engine has six operations:

- `prepare_key` turns a key string into the canonical key sequence of 25 letters. It keeps the key's ASCII letters, upper-cased, with J read as I. Each letter is kept once, in order of first occurrence. The letters of `ABCDEFGHIKLMNOPQRSTUVWXYZ` that the key does not use follow, in alphabetical order.
- `create_matrix` cuts that sequence into a 5×5 matrix, row by row.
- `prepare_text` normalises a text the same way and cuts it greedily into digraphs. The filler `X` follows a letter that is doubled and an odd last letter.
- `find_position` scans the matrix row by row for a letter and answers `(-1, -1)` when the letter is not there.
- `playfair_encrypt` and `playfair_decrypt` substitute every digraph by one of three rules:
  - same row: both columns shift by +1 or −1 mod 5;
  - same column: both rows shift by +1 or −1 mod 5;
  - otherwise (rectangle): each letter keeps its row and takes the other letter's column.

Each Python function that works with a loop is a Dafny `method` with the same loop. Its `ensures` ties the result to a recursive specification function:

| Python | method | specification function |
|---|---|---|
| `prepare_key` | `KeySchedule.PrepareKey` | `KeySequence` (`Dedup` of `Normalize`, then `Remaining`) |
| `create_matrix` | `Matrix.CreateMatrix` | `KeyMatrix` |
| `prepare_text` | `Text.PrepareText` | `Digraphs` of `Normalize` |
| `find_position` | `Matrix.FindPosition` | `Position` |
| `playfair_encrypt`, `playfair_decrypt` | `Cipher.PlayfairEncrypt`, `Cipher.PlayfairDecrypt` | `Playfair` (both go through the shared loop `Cipher.Substitute`) |

The properties the code and its tests promise are lemmas about those functions:

- the key sequence is a permutation of the 25 symbols;
- the order of the key's own letters and of the rest;
- idempotence of the key schedule;
- the lookup answers the one cell that holds a letter, and `(-1, -1)` only for letters not in the matrix;
- digraphs are the letters with fillers inserted;
- the three substitution rules in terms of positions;
- decryption undoes encryption, letter for letter, when no digraph is `XX`.

Module `KnownAnswers` derives every expected value of `test_playfair.py` from the model. It also shows, on a concrete input, that the round trip fails without its precondition.

Files:

- `letters.dfy` (`Letters`): the alphabet, the filler and text normalisation.
- `key.dfy` (`KeySchedule`): `prepare_key`.
- `matrix.dfy` (`Matrix`): `create_matrix` and `find_position`.
- `text.dfy` (`Text`): `prepare_text`.
- `cipher.dfy` (`Cipher`): `playfair_encrypt` and `playfair_decrypt`.
- `known_answers.dfy` (`KnownAnswers`): the unit-test vectors.

In `KnownAnswers`, long string literals are written as concatenations of short ones, such as `"play" + "fair" + " exa" + "mple"` for `"playfair example"`. Both spellings denote the same string.

Where this implementation departs from the textbook description of the Playfair cipher, the model follows the code:

- **Digraphs with a repeated letter.** In the textbook cipher no digraph has a repeated letter. The code emits `XX` for a doubled `x` and for a lone final `x`. `KnownAnswers.TextDoubledX` shows `"xx"` prepared to `XX XX`.
- **Round trip.** The textbook cipher gives back any letters-only plaintext, up to the inserted X's. This code does so when no prepared digraph is `XX`, which holds in particular when the plaintext has no `x` (`Cipher.RoundTrip`, `Cipher.RoundTripWithoutX`). `KnownAnswers.RoundTripNeedsNoFillerPair` shows `"xx"` with the key `"monarchy"`: it encrypts to `ZZZZ`, whose decryption starts with `XW` instead of `XX`.
- **Lookup of a missing letter.** The textbook cipher never looks up a letter that is not in the square. The code answers `(-1, -1)` (`Matrix.PositionSpec`, `Matrix.FindPosition`).

## Model

| member | source | states |
|---|---|---|
| Letters.AlphabetSymbols | playfair_cipher.py:16 | the alphabet string holds exactly the letters A to Z other than J |
| Letters.AlphabetDistinct | playfair_cipher.py:16 | the alphabet has 25 letters, none repeated |
| Letters.Canon | playfair_cipher.py:5-6 | an ASCII letter becomes a symbol; symbols stay as they are; j and J become I; other lower-case letters move down by 32 code points, to their upper-case form |
| Letters.Normalize | playfair_cipher.py:5-6 | filtering, upper-casing and J→I leave only symbols |
| Letters.NormalizeLength | playfair_cipher.py:33-34 | the normalised text is no longer than the input, and empty exactly when the input has no ASCII letter |
| Letters.NormalizeAppend | playfair_cipher.py:5-6 | normalisation works character by character: the normal form of a + b is that of a followed by that of b |
| Letters.NormalizeSymbols | playfair_cipher.py:5-6 | a string of symbols is its own normal form |
| Letters.NormalizeIdempotent | playfair_cipher.py:5-6 | normalising twice is normalising once |
| KeySchedule.Dedup | playfair_cipher.py:10-13 | the first loop as a function: the key letters, each kept the first time it occurs (its properties are the Dedup lemmas below) |
| KeySchedule.FirstIndex | playfair_cipher.py:10-11 | the index returned holds the letter and no earlier index does |
| KeySchedule.DedupFacts | playfair_cipher.py:10-13 | the kept key letters have no repeats and are exactly the letters of the key |
| KeySchedule.DedupOrder | playfair_cipher.py:10-13 | the kept letters appear in the order of their first occurrence in the key |
| KeySchedule.DedupDistinct | playfair_cipher.py:10-13 | a key without repeated letters is kept whole |
| KeySchedule.DedupAppend | playfair_cipher.py:10-13 | deduplicating a + b gives the deduplicated a, then the letters of b's deduplication not seen in a |
| KeySchedule.DedupAppendStep | playfair_cipher.py:10-13 | one more key letter: it is kept after a + p exactly when the deduplication of p keeps it and a does not contain it |
| KeySchedule.DedupExtend | playfair_cipher.py:10-13 | appending letters that were all seen before changes nothing; appending new letters without repeats appends them |
| KeySchedule.Remaining | playfair_cipher.py:17-19 | the second loop as a function: the letters of the alphabet not in seen, in alphabet order (its properties are the Remaining lemmas below) |
| KeySchedule.RemainingFacts | playfair_cipher.py:16-19 | the appended letters are exactly the alphabet letters not seen, and they keep the alphabet's increasing order and its lack of repeats |
| KeySchedule.RemainingNone | playfair_cipher.py:17-19 | when no letter was seen, the whole alphabet is appended |
| KeySchedule.RemainingAllSeen | playfair_cipher.py:17-19 | when every letter was seen, nothing is appended |
| KeySchedule.RemainingAppend | playfair_cipher.py:17-19 | the second loop works letter by letter, so it distributes over concatenation of the alphabet |
| KeySchedule.KeySequence | playfair_cipher.py:3-21 | the key sequence has length 25, no repeats, and holds exactly the 25 symbols, so no J |
| KeySchedule.KeySequenceFacts | playfair_cipher.py:15-21 | completing any repeat-free string of symbols with the unused alphabet letters gives a permutation of the 25 symbols |
| KeySchedule.KeySequenceShape | playfair_cipher.py:10-21 | the key sequence starts with the deduplicated key letters, followed by, in increasing order, exactly the symbols the key does not use |
| KeySchedule.KeySequenceFrom | playfair_cipher.py:10-21 | any prefix and rest of that shape are the key sequence, so the sequence is determined by the two parts |
| KeySchedule.CanonicalFixed | playfair_cipher.py:5-21 | a permutation of the 25 symbols is left unchanged by the key schedule's two steps |
| KeySchedule.KeySequenceIdempotent | playfair_cipher.py:3-21 | prepare_key of a prepared key is that key |
| KeySchedule.KeepFirst | playfair_cipher.py:7-13 | the first loop keeps each letter the first time it is met, and its set seen holds exactly the letters kept |
| KeySchedule.AppendUnused | playfair_cipher.py:16-19 | the second loop appends the unseen alphabet letters, in alphabet order, to what the first loop kept |
| KeySchedule.PrepareKey | playfair_cipher.py:3-21 | the two loops compute the key sequence |
| Matrix.Rows | playfair_cipher.py:27-28 | the matrix has 5 rows of 5, with cell (r, c) holding letter 5r + c of the key sequence |
| Matrix.RowsOf | playfair_cipher.py:27-28 | the rows are the five consecutive slices of five letters |
| Matrix.KeyMatrix | playfair_cipher.py:23-29 | create_matrix as a function, the key sequence cut into rows: a grid of 5 rows of at least 5 cells (of exactly 5 by Matrix.Rows) |
| Matrix.KeyMatrixIsKeyGrid | playfair_cipher.py:23-29 | the matrix is 5×5, its cells are symbols, no two cells hold the same letter, and every symbol sits in some cell |
| Matrix.CreateMatrix | playfair_cipher.py:23-29 | the loop appends the five slices of the key sequence |
| Matrix.ColumnOf | playfair_cipher.py:54-56 | the inner column scan from column c: either −1 or a column from c on whose cell holds the letter |
| Matrix.ColumnOfSpec | playfair_cipher.py:54-56 | the inner scan answers the first column from c on that holds the letter, or −1 when none does |
| Matrix.PositionFrom | playfair_cipher.py:53-57 | the row scan from row r: either (−1, −1) or a cell from row r on holding the letter |
| Matrix.PositionFromSpec | playfair_cipher.py:53-57 | the scan from row r answers the first cell in row-major order holding the letter, or (−1, −1) when none does |
| Matrix.Position | playfair_cipher.py:51-57 | find_position as a function: either (−1, −1) or a cell holding the letter (first in row-major order, by Matrix.PositionSpec) |
| Matrix.PositionSpec | playfair_cipher.py:51-57 | the lookup answers (−1, −1) exactly when the letter is in no cell, and otherwise a cell holding it with no earlier cell holding it |
| Matrix.PositionOfCell | playfair_cipher.py:51-57 | in a matrix without repeated letters, looking up a cell's letter answers that cell |
| Matrix.KeyGridLookup | playfair_cipher.py:51-57 | in a key matrix every symbol is found in its cell and every other character gives (−1, −1) |
| Matrix.FindPosition | playfair_cipher.py:51-57 | the nested loop with early return computes the lookup |
| Text.Digraphs | playfair_cipher.py:37-48 | every digraph has two letters, its letters come from the text or are X, a digraph of two equal letters ends in X, there are no digraphs exactly when the text is empty, and digraphs of a normalised text are made of symbols |
| Text.DigraphsAt | playfair_cipher.py:39-48 | one pass of the loop at index i: the lone last letter with X, a doubled letter with X and a step of one, or two letters and a step of two |
| Text.DigraphsInsertFiller | playfair_cipher.py:37-48 | the letters of the digraphs are the text with zero or more X's inserted |
| Text.DoubleFillerNeedsX | playfair_cipher.py:40-44 | without an X in the text, no digraph repeats a letter |
| Text.DigraphsArePairs | playfair_cipher.py:40-48 | when no digraph is XX, every digraph has two different letters |
| Text.DigraphsOfPairs | playfair_cipher.py:82 | preparing the letters of digraphs of two different letters again gives back the same digraphs |
| Text.Flatten | playfair_cipher.py:77 | joined digraphs of two letters each give two letters per digraph |
| Text.StripFiller | test_playfair.py:39 | removing the X's leaves no X and never lengthens the string |
| Text.StripFillerNone | test_playfair.py:39 | removing the X's from a string without X changes nothing |
| Text.StripFillerAppend | test_playfair.py:39 | removing the X's distributes over concatenation |
| Text.InsertsFillerStrip | test_playfair.py:38-39 | once the X's are removed, inserted X's leave no trace |
| Text.DigraphsStripFiller | test_playfair.py:38-39 | removing the X's from the joined digraphs gives the text without its X's |
| Text.PrepareText | playfair_cipher.py:31-49 | the while loop computes the digraphs of the normalised text |
| Cipher.Shift | playfair_cipher.py:71 | the shifted row or column index is in [0, 4] |
| Cipher.ShiftInverse | playfair_cipher.py:91 | the −1 shift mod 5 undoes the +1 shift and the reverse |
| Cipher.SubstitutePair | playfair_cipher.py:70-75 | every rule yields two letters |
| Cipher.SubstituteDigraph | playfair_cipher.py:66-75 | the substitute of a digraph has two letters |
| Cipher.SubstituteAll | playfair_cipher.py:65-76 | one substitute per digraph |
| Cipher.KeyMatrixLocatable | playfair_cipher.py:67-68 | every letter of a prepared text is found in the key matrix, so the (−1, −1) answer never reaches the substitution |
| Cipher.Transform | playfair_cipher.py:65-77 | the substitution loop and ''.join as a function: the substitutes of the digraphs, joined, two letters per digraph |
| Cipher.Playfair | playfair_cipher.py:59-97 | playfair_encrypt and playfair_decrypt as one function: prepare the text, substitute over the key matrix; the output has two letters per digraph of the prepared text |
| Cipher.SubstitutionRules | playfair_cipher.py:70-75 | same row: the output letters sit in their own rows with the columns shifted; same column: in their own columns with the rows shifted; rectangle: each in its own row and the other letter's column |
| Cipher.DigraphInverse | playfair_cipher.py:90-95 | the decrypt rule applied to the encrypt rule's output gives back the digraph, and the reverse |
| Cipher.PairInverse | playfair_cipher.py:70-75 | for letters at two cells, the output letters are found in the matrix and the rule of the reverse direction maps them back to the letters of those cells |
| Cipher.PairStaysPair | playfair_cipher.py:70-75 | a digraph of two different letters is substituted by two different letters |
| Cipher.PairCells | playfair_cipher.py:70-75 | every rule picks cells of the matrix, so the output letters are symbols |
| Cipher.TransformCells | playfair_cipher.py:59-77 | the output holds only symbols |
| Cipher.FlattenSymbols | playfair_cipher.py:77 | joining strings of symbols gives a string of symbols |
| Cipher.TransformInverse | playfair_cipher.py:79-97 | for digraphs of two different letters, cutting the output into digraphs again gives the substituted digraphs, and substituting those in the reverse direction gives back the original letters |
| Cipher.GridRoundTrip | playfair_cipher.py:79-97 | over any key matrix, decrypting, with its re-preparation, the encryption of digraphs of two different letters gives their letters back |
| Cipher.RoundTrip | playfair_cipher.py:59-97 | when no digraph of the prepared plaintext is XX, decrypting the ciphertext with the same key gives the prepared plaintext with its fillers |
| Cipher.RoundTripWithoutX | test_playfair.py:32-40 | for a plaintext without x, removing the X's from the decryption of the encryption gives the normalised plaintext |
| Cipher.TransformSnoc | playfair_cipher.py:65-76 | one more loop pass appends the substitute of one more digraph |
| Cipher.Substitute | playfair_cipher.py:61-77 | the substitution loop computes the cipher function for the given direction |
| Cipher.PlayfairEncrypt | playfair_cipher.py:59-77 | playfair_encrypt computes the cipher function with the +1 shifts |
| Cipher.PlayfairDecrypt | playfair_cipher.py:79-97 | playfair_decrypt re-prepares its input and computes the cipher function with the −1 shifts |
| KnownAnswers.KeyPlayfairExample | test_playfair.py:12 | prepare_key("playfair example") is PLAYFIREXMBCDGHKNOQSTUVWZ |
| KnownAnswers.KeyJazz | test_playfair.py:13 | prepare_key("jazz") is IAZBCDEFGHKLMNOPQRSTUVWXY |
| KnownAnswers.MatrixPlayfairExample | test_playfair.py:15-24 | create_matrix("playfair example") has the rows PLAYF, IREXM, BCDGH, KNOQS, TUVWZ |
| KnownAnswers.TextHelloWorld | test_playfair.py:27 | prepare_text("hello world") is HE LX LO WO RL DX |
| KnownAnswers.TextBalloon | test_playfair.py:28 | prepare_text("balloon") is BA LX LO ON |
| KnownAnswers.TextJazz | test_playfair.py:29 | prepare_text("jazz") is IA ZX ZX |
| KnownAnswers.HideTheGoldRoundTrip | test_playfair.py:32-40 | encrypting and decrypting "hide the gold in the tree stump" with "playfair example", then removing the X's, gives HIDETHEGOLDINTHETREESTUMP |
| KnownAnswers.KeyMonarchy | test_playfair.py:43 | prepare_key("monarchy") is MONARCHYBDEFGIKLPQSTUVWXZ |
| KnownAnswers.MatrixMonarchy | test_playfair.py:43 | the monarchy matrix has the rows MONAR, CHYBD, EFGIK, LPQST, UVWXZ |
| KnownAnswers.TextInstruments | test_playfair.py:44 | prepare_text("instruments") is IN ST RU ME NT SX |
| KnownAnswers.EncryptInstruments | test_playfair.py:42-46 | playfair_encrypt("instruments", "monarchy") is GATLMZCLRQXA |
| KnownAnswers.DecryptInstruments | test_playfair.py:48 | playfair_decrypt("GATLMZCLRQXA", "monarchy") is INSTRUMENTSX |
| KnownAnswers.DecryptInstrumentsWithoutX | test_playfair.py:48-50 | with its X's removed, that decryption is INSTRUMENTS |
| KnownAnswers.TextDoubledX | playfair_cipher.py:43-44 | prepare_text("xx") is XX XX: a doubled x gives a digraph with two equal letters |
| KnownAnswers.RoundTripNeedsNoFillerPair | playfair_cipher.py:79-97 | with the key "monarchy", "xx" is prepared to XX XX and encrypts to ZZZZ, and decrypting that does not give back XXXX, so the round trip needs its precondition |

## Left out

- The interactive `__main__` block (playfair_cipher.py:99-110) is console input and output; it is not part of this model.
- `re.sub`, `str.upper` and `str.replace` are library calls. They are modelled together by the function `Letters.Normalize`, which keeps the characters `a`–`z` and `A`–`Z`, upper-cases them and maps J to I. Because the filter runs first, upper-casing only ever sees ASCII letters, so Unicode case mapping does not arise.
- `prepare_text` returns its digraphs joined by spaces, and the cipher functions split them again (playfair_cipher.py:49, 65, 85). The model keeps the digraphs as a sequence of two-letter strings. It has no lemma that splitting the joined string gives the digraphs back.
- Python lists and strings become Dafny sequences. Matrix rows are sequences of characters rather than lists of one-character strings.
- Matrix.FindPosition: requires a matrix of at least 5 rows of at least 5 cells, the cells the scan reads. On a smaller list the Python scan raises IndexError if it reaches a missing row or cell before finding the letter, and otherwise returns the cell it found; neither case is modelled. Every matrix that create_matrix builds is 5×5.
- Cipher.Transform: is defined only for digraphs whose letters are found in the matrix (as is Cipher.SubstituteDigraph). In Python a `(-1, -1)` lookup would index the last row and column with negative indices. That branch is not modelled, because `Cipher.KeyMatrixLocatable` proves it never happens for a key matrix and a prepared text.
- Dafny's `%` and Python's `%` agree for the divisor 5, also for the negative operand of `(x - 1) % 5`, so the shifts are written directly.
