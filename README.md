# Pi poem: a verified model of the word selector

`app.py` is a Streamlit script that turns an uploaded text into a "poem".
It reads blocks of decimal digits of pi as word indices. This project
models the script's non-interface logic in Dafny and proves what it
promises:

- **Word extraction** (`limpiar_texto`, module `Words`). The text is
  lowercased, then `re.findall(r"\b[a-záéíóúüñ]+\b", …)` runs on it, then
  duplicates are removed keeping first occurrences (`OrderedDict.fromkeys`).
  The regex scan is modelled as a left-to-right match scan (`Matches`). It
  is proved to find exactly the tokens, in both directions. A token is a
  maximal run of accepted letters with no word character on either side.
  A run glued to a digit, `_` or another word character is dropped whole.
- **Digit stream** (module `DigitStream`). The scanned stream depends on
  the mode:
  - Inverso: the reversed decimals.
  - Espaciado: every `salto`-th digit from `inicio`, with the cursor
    starting at 0.
  - Directo and Modular: the decimals unchanged, with the cursor starting
    at `inicio`.
- **Selection loop** (module `Selection`). `Select` is the loop itself, a
  method over the four loop variables. Its `while` loop carries one
  invariant: running `Run` on from the current variables gives the same
  end state as running it from the start. So its postcondition equates its
  results with `Run`, a function that iterates the loop body `Step`. The
  invariant of the script's loop, `Consistent`, is a predicate on states.
  It holds initially and `Step` keeps it, so by recursion on `Run` it holds
  at the end of every run (`RunConsistent`). Lemmas about `Run` state what
  the loop guarantees:
  - indices are in range and never repeated;
  - the words match their records;
  - record positions strictly increase;
  - every block read whose index is in range ends with its index used
    (`SelectionCovered`), and each record sits at the first block that
    yields its index (`SelectionFirst`); together these fix which blocks
    are accepted, and so the order of the selected words;
  - the loop stops exactly when the guard says it does.
- **Roman numerals** (`to_roman`, module `Roman`). `ToRoman` is the
  two-loop method. It is proved equal to the greedy specification
  `RomanNumeral`. The usual reading of a numeral (`RomanValue`) is proved to
  give the number back. The inner `for` loop is written as the helper
  method `EmitRepeated`.
- **Stanzas** (`generar_versos`, `transformar_en_tanka` and the list at
  line 125, module `Stanzas`). Words are cut into whole groups of seven. A
  trailing partial group is dropped. Each group is rendered as a tanka
  block with lines of 1/2/1/2/1 words and a Roman ordinal.
- **Flow** (module `Poem`). `GeneratePoem` chains the steps as the script
  does.

Files: `lib.dfy`, `words.dfy`, `digit_stream.dfy`, `selection.dfy`,
`roman.dfy`, `stanzas.dfy` and `poem.dfy`. They are verified together.

These are parameters of the model rather than modelled operations:

- the text, given already lowercased;
- the word-character classifier `w` used by `\b`;
- the string of decimals of pi;
- the widget values `modo`, `tam_bloque`, `inicio` and `salto`.

## Model

| member | source | states |
|---|---|---|
| Words.Matches | app.py:39 | matches lie in the text, are non-empty and come in left-to-right order without overlap |
| Words.MatchesAreTokens | app.py:39 | every match of `\b[a-záéíóúüñ]+\b` is a token, and every token from the scan position on is a match |
| Words.FindAll | app.py:39 | the definition of `re.findall`: the texts of `Matches`, in order. What they are is stated by `Words.FindAllTokens` |
| Words.FindAllTokens | app.py:39 | the found texts are the texts of the tokens of the text, one per token, left to right: each is some token's text, consecutive ones come from tokens in order without overlap, and every token's text appears at its own place |
| Words.Dedup | app.py:40 | the result has no duplicates, has the same members as the input, and keeps the order of first occurrences |
| Words.CleanText | app.py:38-40 | the word list has no duplicates, its members are exactly the found texts, in order of first occurrence |
| Words.CleanTextComplete | app.py:39-40 | every token of the text is in the word list |
| Words.CleanTextSound | app.py:39-40 | every word is the text of a token, so it is non-empty and made of accepted letters only |
| Words.GluedRunDropped | app.py:39 | "abc1" yields no word: a letter run glued to a digit is dropped, not split |
| DigitStream.Reversed | app.py:86 | `pi[::-1]` has the same length, and character k is character len-1-k of the input |
| DigitStream.Spaced | app.py:88 | the Espaciado stream as a definition, with no ensures of its own; its length, indices and digits are stated by `DigitStream.SpacedLength`, `DigitStream.SpacedAt` and `DigitStream.SpacedFacts` |
| DigitStream.SpacedLength | app.py:88 | the sampled stream has ceil((len(pi) - inicio) / salto) digits, or none when inicio is past the end |
| DigitStream.SpacedAt | app.py:88 | sampled digit j is digit inicio + j*salto of pi |
| DigitStream.SpacedFacts | app.py:88 | the sampled stream has the ceil length, digit j is digit inicio + j*salto, and digits stay digits |
| DigitStream.Transform | app.py:85-90 | Inverso gives the exact reverse; Espaciado gives the sampled stream with its length and indices; Directo and Modular leave pi unchanged; a stream of digits stays digits |
| DigitStream.StartCursor | app.py:95 | the cursor starts at 0 in Espaciado and at inicio otherwise |
| Selection.BlockValue | app.py:98 | `int(block)` as a definition, with no ensures of its own; its range is stated by `Selection.BlockValueBound`, its reading of leading zeros by `Selection.BlockValueExamples`, `Selection.ThreeDigitBlock` and `Selection.FourDigitBlock` |
| Selection.BlockValueBound | app.py:98 | `int(block)` of a k-digit block is below 10^k |
| Selection.BlockValueExamples | app.py:98 | leading zeros are read as such: "0001" is 1, "010" is 10 |
| Selection.ThreeDigitBlock | app.py:98 | a three-digit block with a leading zero reads as ten times its second digit plus its third |
| Selection.FourDigitBlock | app.py:98 | a four-digit block "000d" reads as d |
| Selection.CandidateIndex | app.py:99-102 | in Modular mode the index is in [0, total); otherwise it is the block value minus one |
| Selection.Continues | app.py:97 | the loop guard, as a definition with no ensures; `Selection.Run` ends with it false and `Selection.SelectionStops` states when it fails |
| Selection.Init | app.py:92-95 | the variables before the loop, as a definition with no ensures; `Selection.InitConsistent` states that they meet the invariant |
| Selection.Step | app.py:98-109 | one iteration moves the cursor by exactly one block |
| Selection.Run | app.py:97-109 | the loop terminates, ends with the guard false, and never moves the cursor back |
| Selection.InitConsistent | app.py:92-95 | the initial state (empty set and lists, cursor at the start) satisfies the loop invariant |
| Selection.StepConsistent | app.py:97-109 | one iteration keeps every part of the loop invariant |
| Selection.RunConsistent | app.py:97-109 | the loop invariant holds when the loop ends |
| Selection.RunFromInit | app.py:92-109 | a whole run from the starting cursor ends in a state that satisfies the invariant |
| Selection.RecordIndicesMembers | app.py:107-108 | an index is recorded exactly when some record names it |
| Selection.SelectionIndices | app.py:104-108 | `usados` holds indices in [0, total), exactly the recorded ones: an index is used exactly when some record names it. len(resultado) == len(registros) == len(usados) <= total |
| Selection.SelectionRecords | app.py:104-108 | record j is (i, the block text at i, idx+1, palabras[idx]) for an aligned in-range position whose block yields idx, and resultado[j] is its word |
| Selection.SelectionOrdered | app.py:104-109 | recorded positions strictly increase and no index is recorded twice |
| Selection.SelectionStops | app.py:97-109 | the loop stops exactly when all words are used or no whole block remains; the cursor moves in whole blocks; when all words are used it stops right after the block that used the last one |
| Selection.SelectedWordsDistinct | app.py:104-106 | with a duplicate-free word list, no word is selected twice and every selected word is from the list |
| Selection.ModularRejectsOnlyRepeats | app.py:99-104 | in Modular mode the block's index is always in range, so a block is rejected only when its index is already used |
| Selection.AlignedGap | app.py:97-109 | two distinct cursor positions a whole number of blocks from the start are at least one block apart |
| Selection.StepCovered | app.py:99-109 | one iteration keeps this fact: every block read so far whose candidate index is in range has its index in `usados` |
| Selection.RunCovered | app.py:97-109 | the rest of the loop keeps that fact, so it holds when the loop ends |
| Selection.SelectionCovered | app.py:97-109 | over a whole run, every block read whose index is in [0, total) ends with its index used. In Modular mode every block read has its index used |
| Selection.StepFirst | app.py:99-106 | one iteration keeps this fact: no block read before a record's position yields that record's index, because the new record's index was unused when its block was read |
| Selection.RunFirst | app.py:97-109 | the rest of the loop keeps that fact, so it holds when the loop ends |
| Selection.SelectionFirst | app.py:97-109 | over a whole run, each record's block is the first block from the start that yields its index; every later block with that index was rejected as already used |
| Selection.StepAccepts | app.py:104-109 | proof helper that unfolds `Step`: an accepted block adds its index, its word and its record, and moves the cursor |
| Selection.StepRejects | app.py:104-109 | proof helper that unfolds `Step`: a rejected block only moves the cursor |
| Selection.RunStep | app.py:97-109 | proof helper that unfolds `Run`: running on from the state after one iteration gives the same final state |
| Selection.Select | app.py:92-109 | the loop's final cursor, used set, word list and records are those of `Run` from the starting cursor |
| Selection.ModularScenarioFrom | app.py:97-109 | on "010011012" in Modular mode with five words, from block j with words 0 .. j-1 taken, the loop takes the words up to the third and stops |
| Selection.ModularScenario | app.py:92-109 | Modular mode over "010011012" with blocks of 3 and five words reads 10, 11, 12 and selects the first three words |
| Selection.DirectScenarioFrom | app.py:97-109 | on a 25-digit stream whose first five 4-digit blocks read 1 to 5, in Directo mode with five words and words 0 to j-1 taken, the loop takes the rest in order and stops at cursor 20 |
| Selection.DirectStreamBlock | app.py:98 | proof helper: block j of "0001000200030004000500010" is three zeros and the digit j + 1 |
| Selection.DirectStreamDigits | app.py:98 | proof helper: "0001000200030004000500010" is all digits |
| Selection.DirectScenario | app.py:92-109 | Directo mode over "0001000200030004000500010" with blocks of 4 and five words reads 1 to 5, selects all five words in order, and stops with the sixth block unread |
| Selection.RunCount | app.py:97-109 | each selected word took one block, so k times the number of selected words is at most the distance the cursor moved |
| Selection.StreamExhausted | app.py:97-109 | with fewer whole blocks after the start than words, the loop ends, with no error, having selected fewer words than the list holds |
| Roman.Value | app.py:48 | the table `val` as a definition with no ensures; its order is stated by `Roman.TableEntry`, `Roman.ValuesDescend` and `Roman.ValuesDecrease` |
| Roman.Symbol | app.py:49 | the table `syms` as a definition with no ensures; its letters and their values are stated by `Roman.TableEntry` |
| Roman.Greedy | app.py:52-56 | the greedy scan as a recursive definition with no ensures; `Roman.GreedyValue`, `Roman.GreedyLetters` and `Roman.GreedyRepeat` state its properties |
| Roman.RomanNumeral | app.py:47-57 | the numeral of n as a definition with no ensures; `Roman.RoundTrip` states that it reads back as n, and `Roman.ToRoman` is proved equal to it |
| Roman.TableEntry | app.py:48-49 | the values strictly decrease; a one-letter symbol is worth its value; a two-letter symbol is a smaller letter before a larger one worth their difference |
| Roman.ValuesDecrease | app.py:48 | a later table value is never larger |
| Roman.ValuesDescend | app.py:48 | every table value is at least 1 and below the one before it |
| Roman.GreedyFirst | app.py:52-56 | a numeral written from entry i opens with a letter worth at most val[i] |
| Roman.GreedyValue | app.py:52-56 | the usual reading of the numeral written from entry i gives back n |
| Roman.RoundTrip | app.py:47-57 | for n >= 1 the usual reading of `to_roman(n)` is n, so distinct ordinals get distinct numerals |
| Roman.GreedyLetters | app.py:47-57 | numerals use only the letters I V X L C D M |
| Roman.GreedyEmit | app.py:53-55 | proof helper that unfolds `Greedy`: while val[i] fits, the scan writes syms[i] and takes val[i] off |
| Roman.GreedySkip | app.py:56 | proof helper that unfolds `Greedy`: when val[i] does not fit, the scan moves on to the next entry |
| Roman.SmallExamples | app.py:47-57 | 4 is IV, and 0 has the empty numeral |
| Roman.YearExample | app.py:47-57 | 1994 is MCMXCIV |
| Roman.UnitExamples | app.py:47-57 | 1 is I, 2 is II, 9 is IX |
| Roman.SubtractiveExamples | app.py:47-57 | 40 is XL, 90 is XC, 400 is CD, 900 is CM |
| Roman.RecentYearExample | app.py:47-57 | 2024 is MMXXIV |
| Roman.RepeatSnoc | app.py:54 | one more repetition appends one more symbol |
| Roman.GreedyRepeat | app.py:53-56 | at entry i the scan writes n // val[i] copies of syms[i], then goes on with n % val[i] |
| Roman.EmitRepeated | app.py:53-55 | the inner loop appends syms[i] exactly n // val[i] times and leaves n % val[i] |
| Roman.EntryDone | app.py:52-56 | one pass of the outer loop leaves unchanged the numeral still to be written |
| Roman.ToRoman | app.py:47-57 | the loops produce the greedy numeral; its reading is n for n >= 1; it uses numeral letters only; n <= 0 gives "" |
| Stanzas.Chunks | app.py:60 | the comprehension of `generar_versos` as a definition with no ensures; `Stanzas.ChunksWindows` ties it to the whole windows |
| Stanzas.Verses | app.py:59-60 | `generar_versos` as a definition with no ensures; `Stanzas.VersesCount`, `Stanzas.VersesAt` and `Stanzas.VersesFlatten` state its properties |
| Stanzas.ChunksWindows | app.py:60 | the comprehension with its length filter keeps exactly the whole windows of `longitud` words |
| Stanzas.WindowsCount | app.py:60 | there are len // longitud whole windows |
| Stanzas.WindowsAt | app.py:60 | window j is words j*longitud to j*longitud + longitud |
| Stanzas.WindowsFlatten | app.py:60 | the windows concatenated are the first longitud * (number of windows) words |
| Stanzas.VersesCount | app.py:59-60 | `generar_versos` gives len(palabras) // longitud groups |
| Stanzas.VersesAt | app.py:59-60 | group j is palabras[j*longitud:(j+1)*longitud] and has exactly longitud words |
| Stanzas.VersesFlatten | app.py:59-60 | the groups concatenated are the first longitud*(len // longitud) words; only a trailing partial group is lost |
| Stanzas.Tanka | app.py:62-66 | None exactly when the group does not have seven words; otherwise a non-empty block |
| Stanzas.GroupFlatten | app.py:66 | cutting by a shape gives groups of the shape's sizes, which concatenate back to the words |
| Stanzas.LineGroups | app.py:66 | the 1/2/1/2/1 groups of a seven-word group are w0 / w1 w2 / w3 / w4 w5 / w6 |
| Stanzas.LinesOf | app.py:66 | the five lines of a group are w0, "w1 w2", w3, "w4 w5", w6 |
| Stanzas.TankaLayout | app.py:62-66 | the block is the opening, the Roman ordinal, the lines joined by `<br>`, and the closing tag; no word is lost or repeated |
| Stanzas.Kept | app.py:125 | a group's rendering passes the truthiness test exactly when the group has seven words |
| Stanzas.TankasFrom | app.py:125 | the list comprehension from enumeration index `offset` on, as a definition with no ensures; `Stanzas.TankasFromAppend`, `Stanzas.TankasFromAt` and `Stanzas.TankasFromAll` state its properties |
| Stanzas.Tankas | app.py:125 | the list `tankas` as a definition with no ensures; `Stanzas.SkippedGroupKeepsNumbering` and `Stanzas.PoemTankas` state its properties |
| Stanzas.TankasFromAll | app.py:125 | when all groups have seven words, tanka j is group j rendered with ordinal offset + j + 1 |
| Stanzas.TankasFromAppend | app.py:125 | the filter works group by group: the tankas of two runs of groups are the tankas of each run, the second numbered from its place in the whole |
| Stanzas.TankasFromAt | app.py:125 | group j adds its own tanka, numbered by its enumeration position, or nothing when it does not have seven words, between the tankas of the groups before and after it |
| Stanzas.SkippedGroupKeepsNumbering | app.py:125 | for any list of groups and any position j whose group is not seven words long, that group adds no tanka and every later group keeps the ordinal of its own position |
| Stanzas.PoemTankas | app.py:124-125 | there are len(resultado) // 7 tankas, tanka j being words 7j..7j+6 with ordinal j+1 |
| Stanzas.FourteenWords | app.py:124-125 | fourteen selected words give exactly two tankas, numbered I and II, made from words 0-6 and 7-13 |
| Poem.GeneratePoem | app.py:85-125 | the words are `limpiar_texto`'s; the selection is the loop's run on the mode's stream from the mode's cursor; the selected words are distinct and from the text; there are len(resultado) // 7 tankas, each one rendered from its group |

## Left out

- The Streamlit interface is not modelled (app.py:1-35, 69-83, 111-144 apart from 124-125). This covers page setup, CSS, the upload and its UTF-8 decoding, the widgets, the sidebar summary of the first five records, the poem text `" ".join(resultado)` at line 119, the download button and the display of the tankas. They are presentation and I/O.
- `cargar_decimales_pi` (app.py:42-45) is file I/O behind a framework cache. The decimals are a parameter, required to be ASCII digits. The script itself does not check this: a block that `int()` cannot parse would raise.
- `texto.lower()` is not modelled. Unicode case mapping is outside the model, so extraction takes the already lowercased text.
- Words.CleanText: `\w` for `\b` is the abstract classifier `w`. It is only required to include the accepted letters, the digits and `_`. Python's exact Unicode word-character table is not modelled.
- The plain-text form of a tanka (app.py:131) is not modelled. It needs a foreign regex library call.
- Poem.GeneratePoem: the widget domains (`tam_bloque` in {3, 4, 5}, `inicio` in 0..10000, `salto` in 1..20) are not enforced. The model accepts any block size of at least 1, any start and any step of at least 1. A block size of 0 would make `int('')` raise as soon as the loop body runs (with no words, or no room for the loop to start, the selection is just empty); in Espaciado mode (the only mode that reads `salto`) a step of 0 always makes `range(…, 0)` raise.
- Roman.ToRoman: the inner `for` loop is a separate method, `EmitRepeated`. It is not inlined into the outer loop.
- Stanzas.Tanka: the f-string is modelled as string concatenation. The parts are grouped by line, which gives the same text.
