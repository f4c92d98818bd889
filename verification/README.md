# InfoStorage message classifier — a Dafny model

This project models the logic that the InfoStorage Telegram bot owns itself, all of
it in `MessageClassifier` (`classifier.py`). The rest is done by libraries and is
taken as given:

- **`_clean_text`** (`TextClean`, with the lemmas in `TextCleanLemmas`). The text
  normaliser runs four steps in order:
  1. strip the ends;
  2. turn every whitespace run into one `' '`;
  3. delete every character that is not `\w`, `\s` or one of `. , ! ? -`;
  4. lower-case.

  Python's character tables (`\s` and `str.strip`, `\w`, `str.lower`) are a
  parameter `CharClasses`. `TextClean.Valid` lists what the lemmas assume of
  them: the tables are exact on ASCII, and beyond ASCII only facts that hold of
  CPython's tables.
- **The training set** of `_setup_tag_classifier` (`Corpus`): 63 phrases, and
  labels built as seven blocks of nine.
- **The decision of `classify_message`** (`Classify`). The fitted pipeline's
  answer is an `Outcome`: either the classes with their probabilities, or "raised".
  `predict` is the first largest probability (numpy's `argmax`). The result is the
  overflow tag `"разное"` when the pipeline raised or the largest probability is
  below 0.3.
- **The ranking of `get_similar_tags`** (`Ranking`):
  1. `zip` the classes with the probabilities;
  2. sort stably from the highest probability to the lowest;
  3. slice with `[:top_k]`, where a negative `top_k` counts from the end;
  4. on failure, answer `[("разное", 1.0)]`.
- **The zero-vector fallback of `get_text_embedding`** (`Embedding`). The sentence
  encoder is a parameter.

`_clean_text` is not idempotent:

- `"a @ b"` cleans to `"a  b"`, which cleans to `"a b"`.
- `"@ a"` cleans to `" a"`.

Under the one-character reading of `str.lower` (see TextClean.Lower under
"Left out"), the model proves the exact condition under which a second pass
changes nothing, and that a third pass never changes anything.

## Model

| member | source | states |
|---|---|---|
| TextClean.TrimStart | classifier.py:90 | the result is a suffix of the input; everything dropped is whitespace; the result does not start with whitespace |
| TextClean.TrimEnd | classifier.py:90 | the result is a prefix of the input; everything dropped is whitespace; the result does not end with whitespace |
| TextClean.Strip | classifier.py:90 | `str.strip()` never lengthens the text, and what remains neither starts nor ends with whitespace |
| TextCleanLemmas.StripInfix | classifier.py:90 | the stripped text is a contiguous piece of the input, and only whitespace lies before and after it |
| TextCleanLemmas.StripNonSpace | classifier.py:90 | stripping loses no non-whitespace character and keeps their order |
| TextCleanLemmas.StripIdentity | classifier.py:90 | text whose ends are not whitespace is left unchanged by stripping |
| TextClean.Collapse | classifier.py:90 | replacing whitespace runs never lengthens the text |
| TextCleanLemmas.CollapseEnds | classifier.py:90 | collapsing empties only the empty text, and turns the first and last characters into ' ' exactly when they are whitespace |
| TextCleanLemmas.CollapseOnlySpace | classifier.py:90 | the only whitespace character left after `re.sub(r'\s+', ' ', ...)` is ' ' |
| TextCleanLemmas.CollapseNoDoubleSpace | classifier.py:90 | after collapsing, no two whitespace characters are adjacent |
| TextCleanLemmas.CollapseNonSpace | classifier.py:90 | collapsing keeps every non-whitespace character, in order |
| TextCleanLemmas.CollapseKeepsSpace | classifier.py:90 | whitespace anywhere in the input leaves a ' ' in the output |
| TextCleanLemmas.CollapseAppend | classifier.py:90 | text cut after a non-whitespace character collapses piece by piece |
| TextCleanLemmas.CollapseRun | classifier.py:90 | a whitespace run between two pieces that do not touch it with whitespace becomes exactly one ' ' at that place, and both pieces collapse on their own |
| TextCleanLemmas.CollapseImage | classifier.py:90 | the collapsed text is a subsequence of the input with whitespace replaced by ' ' |
| TextCleanLemmas.CollapseIdentity | classifier.py:90 | text whose only whitespace is single ' ' characters is left unchanged by collapsing |
| TextClean.Filter | classifier.py:91 | the deletion never lengthens the text, and every character it keeps is a word character, whitespace or one of `. , ! ? -` |
| TextCleanLemmas.FilterMembers | classifier.py:91 | a character survives the deletion if and only if it occurs in the input and is of a kept class |
| TextCleanLemmas.FilterCount | classifier.py:91 | each kept-class character occurs in the output as often as in the input, and no other character occurs |
| TextCleanLemmas.FilterIdentity | classifier.py:91 | the deletion leaves the text unchanged if and only if every character is of a kept class |
| TextCleanLemmas.FilterImage | classifier.py:91 | the deletion keeps a subsequence of the input |
| TextClean.Lower | classifier.py:92 | lower-casing keeps the length and maps each character on its own |
| TextClean.CleanText | classifier.py:89-92 | the cleaned text is never longer than the input |
| TextCleanLemmas.CleanTextImage | classifier.py:89-92 | the cleaned text is the character-wise image of a subsequence of the input, so it is never longer and kept characters keep their order; whitespace maps to ' ', and every other character to its lower case |
| TextCleanLemmas.CleanTextNonSpace | classifier.py:89-92 | the non-whitespace characters of the cleaned text are exactly those of the input that are of a kept class, lower-cased, with their multiplicities and order |
| TextCleanLemmas.CleanTextStrip | classifier.py:90 | whitespace around a message does not change how it cleans |
| TextCleanLemmas.CleanTextChars | classifier.py:89-92 | every output character is ' ', one of `. , ! ? -`, or a lower-case word character; no other whitespace survives |
| TextCleanLemmas.CleanTextOfSpaces | classifier.py:90 | an empty or whitespace-only input cleans to "" |
| TextCleanLemmas.CleanTextEmpty | classifier.py:89-92 | the cleaned text is empty if and only if the stripped input contains no character of a kept class |
| TextCleanLemmas.CleanTextVisible | classifier.py:89-92 | an input containing a word character or one of `. , ! ? -` never cleans to "" |
| TextCleanLemmas.StripCollapseTidy | classifier.py:90 | after the first line, the text has no leading, trailing or doubled space |
| TextCleanLemmas.CleanTextOfClean | classifier.py:89-92 | on text made only of characters the cleaner can output, cleaning reduces to stripping and collapsing |
| TextCleanLemmas.CleanTextFixedPoint | classifier.py:89-92 | tidy text made of characters the cleaner can output is a fixed point of cleaning |
| TextCleanLemmas.CleanTextIdempotentIff | classifier.py:90-91 | cleaning twice equals cleaning once if and only if the first result has no leading, trailing or doubled space |
| TextCleanLemmas.CleanTextTwoPasses | classifier.py:89-92 | the second pass always reaches a fixed point, so a third pass changes nothing |
| TextCleanLemmas.CleanTextIdempotentWhenNothingDeleted | classifier.py:90-91 | when the deletion on line 91 removes nothing, cleaning is idempotent |
| TextCleanLemmas.CleanTextNotIdempotent | classifier.py:90-91 | "a @ b" cleans to "a  b", which cleans to "a b": cleaning is not idempotent |
| TextCleanLemmas.CleanTextLeadingSpace | classifier.py:90-91 | "@ a" cleans to " a": deleting after stripping can leave a leading space |
| TextCleanLemmas.AsciiOnlyValid | classifier.py:89-92 | the ASCII reading of the character tables meets every assumption the lemmas make, so those assumptions are consistent |
| Corpus.TrainingSetAligned | classifier.py:19-57 | there are as many training texts as labels, 63 = 7 topics × 9 |
| Corpus.TrainLabelsAreBlocks | classifier.py:49-57 | the label list is the seven topics, each repeated nine times, block after block |
| Corpus.CategoriesDistinct | classifier.py:49-57 | the seven topic labels are pairwise different |
| Corpus.TrainingLabels | classifier.py:19-57 | text `i` is labelled with the topic of block `i / 9`; each topic labels exactly nine texts, and no other label occurs |
| Classify.ArgMax | classifier.py:79 | the prediction index is the first position of a largest probability |
| Classify.FirstMaxUnique | classifier.py:79 | the first position of a maximum is unique, so `predict` is determined by the probabilities |
| Classify.MaxProb | classifier.py:81 | `max(probabilities)` is one of the probabilities and is at least every other one |
| Classify.Predict | classifier.py:79 | the predicted class is the class at the first largest probability |
| Classify.Decide | classifier.py:76-87 | the tag is "разное" when the library raised, the answer is malformed, or no probability reaches 0.3; otherwise it is the class at the first largest probability |
| Classify.ClassifyMessage | classifier.py:76-87 | the pipeline sees the cleaned text; the tag is "разное" when it raised, answered malformed, or reached no 0.3, and otherwise the class at the first largest probability |
| Classify.ClassifyMessageStrip | classifier.py:76-78 | leading and trailing whitespace never changes the tag |
| Classify.DecideTags | classifier.py:76-87 | with classes from the training set, the tag is one of the seven topics or "разное", and it is "разное" exactly when the call failed or the largest probability is below 0.3 |
| Classify.ClassifyMessageTags | classifier.py:76-87 | for every text, `classify_message` answers one of the eight tags |
| Ranking.Zip | classifier.py:99 | `zip` pairs the classes with the probabilities position by position, as long as the shorter of the two |
| Ranking.Take | classifier.py:101 | `[:top_k]` is a prefix: min(top_k, n) long for top_k ≥ 0, and n + top_k long (at least 0) for negative top_k |
| Ranking.SortDesc | classifier.py:100 | the sort is a permutation of its input, with probabilities not increasing |
| Ranking.Insert | classifier.py:100 | one insertion step of the sort adds exactly the new pair and nothing else |
| Ranking.SortDescStable | classifier.py:100 | the sort is stable: pairs with equal probability keep their input order |
| Ranking.SortDescUnique | classifier.py:100 | any ordering by non-increasing probability that keeps equal probabilities in input order is this sort's result |
| Ranking.SimilarTags | classifier.py:94-104 | failure gives exactly `[("разное", 1.0)]`; otherwise the answer has the sliced length, holds only original (class, probability) pairs, and is sorted by non-increasing probability |
| Ranking.SimilarTagsTopK | classifier.py:97-101 | no pair left out is more probable than a pair kept |
| Ranking.SimilarTagsKeepOrder | classifier.py:99-101 | among pairs of equal probability, the kept ones are the first in class order |
| Ranking.SimilarTagsDistinct | classifier.py:97-101 | with distinct classes, no class appears twice in the answer |
| Ranking.GetSimilarTags | classifier.py:94-104 | the pipeline sees the cleaned text; failure gives the fallback, and otherwise the answer is drawn from the (class, probability) pairs, sorted by non-increasing probability |
| Ranking.GetSimilarTagsDefault | classifier.py:94 | without `top_k` the answer has at most three pairs, and exactly three when the pipeline answers with at least three classes and three probabilities |
| Ranking.GetSimilarTagsTags | classifier.py:94-104 | with a pipeline fitted on the training set, every tag in the answer is a topic or "разное" |
| Embedding.EmbeddingOrZero | classifier.py:67-74 | the encoder's vector is returned as it came; a failure gives 384 zeros |
| Embedding.GetTextEmbedding | classifier.py:67-74 | the encoder sees the cleaned text; its vector is returned as it came, and a failure gives 384 zeros |
| Embedding.GetTextEmbeddingWidth | classifier.py:67-74 | if the encoder's vectors have width 384, the method always returns 384 numbers |
| Embedding.GetTextEmbeddingNonZero | classifier.py:67-74 | a vector with a nonzero entry is the encoder's answer for the cleaned text |

## Left out

- `db.py` (the Milvus vector store) is not part of this model. It is a client for an external service: connecting, creating the schema and index, inserting, flushing, searching and counting.
- `bot.py` (the aiogram handlers, keyboards, message formatting and the search-mode flag) is not part of this model. It is presentation glue whose behaviour depends on aiogram's dispatch.
- Fitting TF-IDF and MultinomialNB, and computing the probabilities (classifier.py:59-65, 79-80, 97), are library numerics. The pipeline is a parameter `string -> Outcome<Posterior>`. The order of `classes_` is sklearn's choice and is taken as given. That the probabilities sum to 1 is not modelled.
- The SentenceTransformer encoder (classifier.py:14, 70) is an opaque model. It is a parameter `string -> Outcome<seq<real>>`.
- Python's Unicode tables are not spelled out. `\w`, `\s`, `str.strip` and `str.lower` are a `CharClasses` parameter: exact on ASCII, constrained beyond it by `Valid`.
- TextClean.Lower: `str.lower` is modelled one character to one character, and `Valid` asks that lower-casing keeps word characters word characters. CPython's `str.lower` can expand a character, and it is context-dependent for final sigma (`'ΑΣ'.lower()` is `'ας'`). So these hold only under the one-character reading: the length bound of TextClean.CleanText and CleanTextImage, CleanTextChars, CleanTextNonSpace, CleanTextFixedPoint, CleanTextIdempotentIff, CleanTextIdempotentWhenNothingDeleted and CleanTextTwoPasses. For example, `'İ'.lower()` is `"i\u0307"`, and U+0307 is not `\w`. So `_clean_text("İ")` is `"i\u0307"`, which has no leading, trailing or doubled space, yet a second pass deletes the U+0307.
- TextClean.CleanText: holds only under the one-character reading of `str.lower` described under TextClean.Lower.
- TextCleanLemmas.CleanTextImage: holds only under the one-character reading of `str.lower` described under TextClean.Lower.
- TextCleanLemmas.CleanTextChars: holds only under the one-character reading of `str.lower` described under TextClean.Lower.
- TextCleanLemmas.CleanTextNonSpace: holds only under the one-character reading of `str.lower` described under TextClean.Lower.
- TextCleanLemmas.CleanTextFixedPoint: holds only under the one-character reading of `str.lower` described under TextClean.Lower.
- TextCleanLemmas.CleanTextIdempotentIff: holds only under the one-character reading of `str.lower` described under TextClean.Lower.
- TextCleanLemmas.CleanTextTwoPasses: holds only under the one-character reading of `str.lower` described under TextClean.Lower.
- TextCleanLemmas.CleanTextIdempotentWhenNothingDeleted: holds only under the one-character reading of `str.lower` described under TextClean.Lower. On `"İ"` the deletion on line 91 removes nothing, yet a second pass deletes the U+0307 that `str.lower` introduced.
- Probabilities are `real`, not IEEE doubles. The comparison with 0.3 is exact, and NaN is not modelled.
- Classify.Decide: `predict` and `predict_proba` are two calls on the same pipeline. They are modelled as one answer, assumed consistent. An answer with no class, or with a different number of probabilities and classes, is treated like a raised exception.
- Logging on every failure path is not modelled.
- Model loading in `__init__` (classifier.py:13-16) is a library call and is not modelled.
