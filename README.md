# RDGCN data preparation in Dafny

RDGCN aligns the entities of two knowledge graphs (for example the French
and English DBpedia). Before training, the repository prepares three things:

- **Entity names.** A one-off vectorisation script reads the entity-ID file
  of each graph and turns every line into an entity name. It keeps the last
  tab field, keeps only the text between the first `/resource/` and the next one (or
  the end of the field), drops the newline and
  turns underscores into spaces.
- **Initial vectors.** The script looks each name up in a GloVe-style
  word-embedding file. It takes an exact hit, else the mean of the
  space-separated words' vectors, else 300 zeros. It stores the vectors of
  graph 2 followed by those of graph 1.
- **The driver's inputs.** The training script counts the distinct entity
  IDs of both graphs. It splits the shuffled alignment links into a
  training part (three tenths, in whole tenths) and a test part. The
  configuration derives the five dataset paths from a language-pair tag and
  fixes the hyper-parameters: `Dim` 300, `Alpha` 0.1, `Beta` 0.3, `Gamma`
  1.0, `K` 125 and `Seed` 3.

The project has six modules, one file each:

- `Wrappers` holds `Option` and `Result`.
- `PyStrings` models the Python string built-ins the code uses. These are
  the substring search behind `in` and `split`, `str.split(sep)`, `sep.join`, whitespace `str.split()`,
  `''.join`, single-character `str.replace` and `str(int)`.
- `Vectors` models `np.zeros` and `np.mean(..., axis=0)` over reals.
- `Configuration` models `include/Config.py`.
- `Vectorization` models `include/Vectorization.py`.
- `Driver` models lines 36-42 of `main.py`.

Conventions:

- A file is a map from its path to its lines, each with the newline Python
  leaves on it. A missing path is `FileNotFound`.
- Parsing a float token is a parameter `parse`. A token it rejects is the
  `ValueError` of `np.asarray`, modelled as `MalformedNumber`.
- Every exception the code can raise is a `Result` error. `np.mean` over
  vectors of unequal length is `InhomogeneousShape`.
- The loops that build a list or a dictionary are methods proved against a
  specification function: `ReadNames` against the comprehension
  `EntNames`, `LoadEmbedding` against the recursive `Build`, and
  `EmbedNames` against the recursive `EmbedAll`.
  The rest is functions and lemmas.

The `--language` help text (main.py lines 28-29) says the options are
limited to five tags, but the configuration accepts any language tag and
does not reject an unknown one; the model follows the code.

## Model

| member | source | states |
|---|---|---|
| Configuration.NewConfig | include/Config.py:13-20 | language and epochs are stored as passed, unvalidated; each of the five paths is `data/<language>/` followed by its fixed file name |
| Configuration.DefaultConfig | include/Config.py:13-20 | with no arguments the tag is `ja_en`, the epochs are 600 and each of the five paths is the one under `data/ja_en/` |
| Configuration.PathsDistinct | include/Config.py:16-20 | the five paths are pairwise different for every language tag |
| Configuration.PathDeterminesLanguage | include/Config.py:16 | two tags that give the same entity path are the same tag |
| Driver.TrainSize | main.py:41 | the training size never exceeds the number of links, is at most three tenths of it, and is zero below ten links |
| Driver.SplitLinks | main.py:41-42 | training followed by test is the whole link list; training has `(n div 10) * 3` links and test the remaining `n - m` |
| Driver.SplitIsPermutation | main.py:41-42 | the two parts together hold every link with its multiplicity |
| Driver.SmallSplit | main.py:41-42 | with fewer than ten links, training is empty and test is all links |
| Driver.SplitOverlap | main.py:41-42 | the parts share a link if and only if some link occurs both before and after the split point |
| Driver.SplitDisjoint | main.py:41-42 | without repeated links the two parts are disjoint |
| Driver.DistinctAtMostLength | main.py:36 | a list has at most as many distinct IDs as elements |
| Driver.EntityCount | main.py:36 | the entity count is at least each graph's distinct count and at most their sum |
| Driver.EntityCountBounds | main.py:36 | the count is at most the total list length, and equals the sum of the distinct counts if and only if no ID is shared |
| Vectors.Zeros | include/Vectorization.py:79 | the zero vector has the asked length and every component 0 |
| Vectors.Mean | include/Vectorization.py:77 | the mean exists if and only if all vectors have the first one's length, and then has that length |
| Vectors.MeanOfCopies | include/Vectorization.py:77 | the mean of copies of one vector is that vector |
| Vectors.MeanOfPair | include/Vectorization.py:77 | the mean of two equally long vectors is their componentwise midpoint |
| PyStrings.IndexOfIsFirst | include/Vectorization.py:28 | the substring search behind `in` and `split` reports an occurrence, it is the first one, and it reports none exactly when there is none |
| PyStrings.ContainsChar | include/Vectorization.py:75 | `c in s` for a one-character pattern holds if and only if the character occurs in the string |
| PyStrings.SplitCount | include/Vectorization.py:28-29 | a split has at least two pieces if and only if the separator occurs |
| PyStrings.SplitPieces | include/Vectorization.py:76 | no piece holds the separator, and there is one piece exactly when the separator does not occur |
| PyStrings.JoinSplit | include/Vectorization.py:27 | joining the pieces with the separator gives back the string |
| PyStrings.SplitFirst | include/Vectorization.py:118 | the first piece holds no separator and is the whole string or is followed by the separator in it |
| PyStrings.SplitSecond | include/Vectorization.py:29 | the first piece ends at the first occurrence; the second starts right after it and ends at the next occurrence starting there or later, or at the end; no occurrence, overlapping ones included, starts inside either piece |
| PyStrings.FirstTwoPiecesUnique | include/Vectorization.py:29 | those conditions fix both pieces: no other pair of pieces meets them |
| PyStrings.SplitTwo | include/Vectorization.py:76 | splitting `a + c + b` on a character in neither part gives `[a, b]` |
| PyStrings.LastFieldIsSuffix | include/Vectorization.py:27 | the last field is a suffix without the separator, preceded by the separator unless it is the whole string |
| PyStrings.WordLength | include/Vectorization.py:52 | the leading word is a maximal run of non-whitespace characters |
| PyStrings.Tokens | include/Vectorization.py:52 | every token of `str.split()` is non-empty and free of whitespace |
| PyStrings.ConcatTokens | include/Vectorization.py:52-54 | joining the tokens with no separator gives the line with its whitespace removed |
| PyStrings.TokensOfWord | include/Vectorization.py:52 | a non-empty run without whitespace is one token: `str.split()` never cuts inside a word |
| PyStrings.TokensAtSpace | include/Vectorization.py:52 | every whitespace character separates: the tokens of `a + w + b` are the tokens of `a` then those of `b`; with `TokensOfWord` this fixes the tokens as exactly the maximal runs, which decides the key and the 300 vector components of lines 53-54 |
| PyStrings.ConcatHasNoSpace | include/Vectorization.py:54 | joining whitespace-free words gives a whitespace-free string |
| PyStrings.ReplaceChar | include/Vectorization.py:31-33 | replacing keeps the length and maps every occurrence of the old character, and only those, to the new one |
| PyStrings.NatToStringRoundTrip | include/Vectorization.py:25 | the decimal text of a number reads back as that number |
| Vectorization.EntIdsPathMatchesConfig | include/Vectorization.py:25 | for graphs 1 and 2 the script reads the files the configuration names |
| Vectorization.TrimNewline | include/Vectorization.py:30-33 | exactly one trailing newline is removed when present; otherwise the text is unchanged |
| Vectorization.ResourceSegmentSpec | include/Vectorization.py:28-29 | a field without `/resource/` is kept whole; otherwise the kept text is the second piece: it starts after the first marker and runs to the next marker starting there or later (or the end), and holds none |
| Vectorization.OverlappingMarkers | include/Vectorization.py:29 | the marker overlaps itself, yet `x/resource/resource/A` keeps `resource/A`: the first marker counts |
| Vectorization.ResourceSegmentChars | include/Vectorization.py:28-29 | the kept segment adds no character to the field |
| Vectorization.CleanNameChars | include/Vectorization.py:27-33 | a name never contains a tab or an underscore |
| Vectorization.CleanNameOfBareName | include/Vectorization.py:27-33 | a line with no tab, marker, underscore or trailing newline is its own name |
| Vectorization.ReadNames | include/Vectorization.py:24-33 | one name per line, the cleaned name of that line, in file order |
| Vectorization.LoadEntNames | include/Vectorization.py:8-34 | as written: an unknown dataset is an error, any graph number is read, a missing file is an error, else the file's names |
| Vectorization.LoadEntNamesChecked | include/Vectorization.py:8-34 | as intended: an unknown dataset, then a graph number other than 1 or 2, are errors; otherwise the file's names or a missing-file error |
| Vectorization.GraphThreeIsRead | include/Vectorization.py:20-21 | with `ent_ids_3` present, the as-written loader returns its names and the corrected one reports graph 3 |
| Vectorization.LineParts | include/Vectorization.py:52-54 | the word part and the vector part together are the line's tokens; the vector part has the last 300 tokens, or all if fewer |
| Vectorization.ParseAll | include/Vectorization.py:53 | the vector exists if and only if every token parses; it holds their values in order |
| Vectorization.ParseLines | include/Vectorization.py:51-52 | one parsed entry per line of the file |
| Vectorization.LoadEmbedding | include/Vectorization.py:37-62 | a missing file is an error; otherwise the dictionary built line by line, whatever `verbose` is |
| Vectorization.BuildErrorPersists | include/Vectorization.py:51-55 | a failure in a prefix of the file is the failure of the whole file |
| Vectorization.BuildOutcome | include/Vectorization.py:51-55 | loading succeeds if and only if every line parses; a failure names the first line that does not |
| Vectorization.BuildKeys | include/Vectorization.py:54-55 | the dictionary's keys are exactly the lines' keys |
| Vectorization.LastWriteWins | include/Vectorization.py:55 | a key maps to the vector of the last line with that key |
| Vectorization.BuildValues | include/Vectorization.py:53-55 | every stored vector is the vector of some line |
| Vectorization.LoadedVectorsHaveWidth | include/Vectorization.py:53 | when every line has at least 300 tokens, every stored vector has 300 components |
| Vectorization.KeysHaveNoSpace | include/Vectorization.py:52-54 | no key of a loaded dictionary contains whitespace |
| Vectorization.SpacedNameIsNeverAKey | include/Vectorization.py:54-75 | a name with a space is never an exact hit in a loaded dictionary |
| Vectorization.EmbedEntity | include/Vectorization.py:65-79 | an exact hit returns the stored vector unchanged, spaces or not; a name without a space that is not a key gets 300 zeros |
| Vectorization.MissedNameAveragesPieces | include/Vectorization.py:75-77 | a missed name with a space has at least two pieces and gets the mean of its pieces' lookups, or an error when their lengths differ |
| Vectorization.EmbedEntityWidth | include/Vectorization.py:73-79 | when all entries have 300 components, every name gets a 300-long vector and no error |
| Vectorization.UnknownNameIsZero | include/Vectorization.py:75-79 | a name none of whose pieces is known gets 300 zeros |
| Vectorization.TwoKnownWords | include/Vectorization.py:75-77 | a missed two-word name of known words gets the midpoint of their vectors |
| Vectorization.EmbedAllErrorPersists | include/Vectorization.py:101-102 | a failure for an earlier name is the failure of the whole list |
| Vectorization.EmbedAllSpec | include/Vectorization.py:100-103 | the list succeeds if and only if every name does; then it has one vector per name, each that name's vector, in order |
| Vectorization.EmbedNames | include/Vectorization.py:100-103 | the loop computes exactly the list specification |
| Vectorization.ApplyEmbedding | include/Vectorization.py:80-103 | an unknown dataset, then a bad graph number, are errors; otherwise the vectors of the graph's entity file |
| Vectorization.OutputPathPrefix | include/Vectorization.py:118 | the file-name prefix is the dataset text before its first underscore |
| Vectorization.StoreEmbedding | include/Vectorization.py:106-118 | the stored list is graph 2's vectors followed by graph 1's, written to the dataset's `_vectorList.json`; graph 1's error comes first |
| Vectorization.GraphRows | include/Vectorization.py:100-103 | with 300-long entries an existing entity file gives one 300-long vector per name, in file order |
| Vectorization.StoredLayout | include/Vectorization.py:114-116 | the stored rows are graph 2's rows then graph 1's, one 300-long row per entity of either graph |

## Left out

- Model building, training and Hits@K evaluation live in files that are not part of this model. They are TensorFlow code over floating-point tensors.
- `Config.act_func` is a TensorFlow function object, a foreign call.
- Random seeding and the in-place shuffle of the alignment links are left out. The split takes the shuffled list as its input.
- float32 parsing and rounding are left out. Tokens are parsed by the `parse` parameter, and vectors and means are exact reals.
- File I/O, `json.dump`, `tqdm` and the progress message are left out. The loader that `main.py` uses for its ID and link files is not part of this model. The entity count and the split take its results as lists.
- UTF-8 decoding and newline translation are left out. Lines are given as Python would yield them.
- Command-line parsing, the timestamp, and the `__main__` block that stores `dbp_yg` are left out. So is all of `include/Logging.py`, which is file output only.
- Vectorization.OutputPath: `dataset.split('_', 1)[0]` is modelled as the first piece of an unlimited split. The first piece is the same either way.
- Vectorization.EmbedEntity: a ragged mean is reported as an error. Older numpy versions instead build an object array, and that behaviour is not modelled.

## Findings

| source | as written | input that shows it | evidently intended | confidence | as-written member | corrected member |
|---|---|---|---|---|---|---|
| include/Vectorization.py:20-21 | the `ValueError` for a graph number other than 1 or 2 is constructed but not raised, so the check does nothing | `__load_ent_names('ja_en', 3)` with a file `data/ja_en/ent_ids_3` present returns its names | raise the error, as `__apply_embedding` does at line 96 | not executed | Vectorization.GraphThreeIsRead | Vectorization.LoadEntNamesChecked |
