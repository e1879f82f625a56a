# Food and Nutrition RAG — verified model of the core

This project models, in Dafny, the parts of the Food-and-Nutrition RAG
system that carry their own logic, and proves what they promise:

- **Recipe ingestion** (`embedd_data/embedding_json.py`). `format_nutrients`
  renders a recipe's nutrition text. The ingestion loop turns every recipe
  record into a name document, one steps document per splitter piece, and a
  nutrition document. The documents are then projected into the parallel
  `texts` and `metadatas` lists handed to the vector store (module
  `Chunking`, file `chunking.dfy`).
- **Retrieval evaluation** (`eval/eval_rag.py`, `evaluate_retriever`). For
  each ground-truth question it lower-cases the relevant string and the
  retrieved texts, filters the matching texts, and computes recall,
  precision and the reciprocal rank of the first match. The summary holds
  the mean of each list (module `RetrievalEval`, file `retrieval_eval.dfy`).
- **Answer rendering** (`web/static/home.js`, `formatTextToHTML`). It
  escapes `&`, `<` and `>`, splits the text into lines at `\n` or `\r\n`, and
  runs the `inList` state machine that wraps runs of `- ` / `* ` lines in one
  `<ul>` and turns every other line into `<p>` (module `AnswerHtml`, file
  `answer_html.dfy`).
- **Answer selection** (`web/static/home.js:226`). The page shows the first
  truthy field among `answer`, `text` and `reply` of the reply, or else the
  reply's JSON serialisation (module `AnswerSelect`, file
  `answer_select.dfy`).

Shared pieces are in `text.dfy` (module `Text`) and `wrappers.dfy` (module
`Wrappers`). `Text` holds join, split at one character, prefix and substring
search on `seq<char>`. `Wrappers` holds `Option` and `Result`.

The loops of the source are methods with loop invariants. Each is proved
equal to a specification function, and the lemmas are about those functions:

- `Chunking.FormatNutrients`, `Chunking.Ingest` and its inner loop
  `Chunking.AppendStepDocs`;
- `RetrievalEval.FindRank`, `RetrievalEval.EvaluateRetriever`;
- `AnswerHtml.FormatTextToHtml`.

The loop bodies `RetrievalEval.EvaluateQuery` and `AnswerHtml.EmitLine` are
methods without loops, proved equal to `RetrievalEval.ScoreQuery` and to the
rendering of `AnswerHtml.Step`.

For the renderer, the state machine (`AnswerHtml.Machine`) is also proved
equal to an independent reference. That reference groups the lines into
maximal bullet runs and paragraphs (`AnswerHtml.Group`) and renders each
block on its own.

Foreign calls are parameters:

- the text splitter: `split: string -> seq<string>`;
- the retriever: `retrieve: string -> seq<string>`, which gives the page
  contents of the retrieved documents in retrieval order;
- `JSON.stringify`: `stringify: Json -> string`.

Other modelling choices:

- Metric ratios and means are exact `real`s.
- The NaN that `np.mean` gives for an empty list is `None`.
- The `ZeroDivisionError` raised when a question retrieves nothing is a
  `Failure`. It ends the whole evaluation, as the uncaught exception does.

## Model

| member | source | states |
|---|---|---|
| Chunking.NutritionText | embedd_data/embedding_json.py:42-46 | definition of the text `format_nutrients` returns: the header and the entry lines joined with `\n`; `Chunking.FormatNutrients` and `Chunking.NutritionTextLines` state its properties |
| Chunking.FormatNutrients | embedd_data/embedding_json.py:42-46 | the loop's result is the header line `Nutrition Facts for {name}:` followed by one `- {nutrient}: {value}` line per entry, joined with `\n`; it always starts with the header |
| Chunking.NutritionTextLines | embedd_data/embedding_json.py:42-46 | when no name, nutrient or value holds a newline, the nutrition text splits back into exactly 1 + \|nutrients\| lines: the header, then each entry's line in iteration order |
| Chunking.RecipeDocs | embedd_data/embedding_json.py:57-80 | definition of one record's documents in append order; `Chunking.RecipeDocsLayout` and `Chunking.RecipeDocsTypes` state their layout and types |
| Chunking.AllDocs | embedd_data/embedding_json.py:55-80 | definition of `docs` after the loop, record by record; `Chunking.Ingest`, `Chunking.DocsLength`, `Chunking.AllDocsTypes` and `Chunking.RecordPosition` state its properties |
| Chunking.Ingest | embedd_data/embedding_json.py:50-80 | the loop's `docs` equal the documents of every record in input order, and their number is the sum over the records of 2 + the number of step pieces |
| Chunking.AppendStepDocs | embedd_data/embedding_json.py:69-73 | the inner loop appends one `steps` document per splitter piece, in piece order, each with the record's name as `id` |
| Chunking.DocsLength | embedd_data/embedding_json.py:55-80 | the number of documents is the sum over the records of name + pieces + nutrition |
| Chunking.AllDocsAppend | embedd_data/embedding_json.py:55-80 | the loop only appends: processing two batches of records one after the other gives the documents of their concatenation |
| Chunking.RecipeDocsLayout | embedd_data/embedding_json.py:57-80 | one record's documents are the name document `Recipe Name: {name}` first, then one `steps` document per splitter piece in piece order, then the nutrition document; every one has the record's name as `id` |
| Chunking.RecipeDocsTypes | embedd_data/embedding_json.py:59-80 | each record gives exactly one `name` document, exactly one `nutrition` document and as many `steps` documents as the splitter returns pieces |
| Chunking.AllDocsTypes | embedd_data/embedding_json.py:55-80 | over the whole input there are exactly as many `name` documents and as many `nutrition` documents as records |
| Chunking.RecordPosition | embedd_data/embedding_json.py:55-80 | record k's documents sit contiguously right after the documents of records 0 to k-1 |
| Chunking.Texts | embedd_data/embedding_json.py:93 | one page text per document (`Chunking.ProjectionAligned` states the alignment) |
| Chunking.Metadatas | embedd_data/embedding_json.py:94 | one metadata record per document (`Chunking.ProjectionAligned` states the alignment) |
| Chunking.ProjectionAligned | embedd_data/embedding_json.py:93-94 | `texts` and `metadatas` have one entry per document and are index-aligned: zipping them back gives the documents |
| RetrievalEval.LowerChar | eval/eval_rag.py:27 | definition of `lower()` on one character, ASCII letters only (see "Left out") |
| RetrievalEval.Lower | eval/eval_rag.py:27 | definition of `relevant_doc.lower()`, character by character |
| RetrievalEval.LowerAll | eval/eval_rag.py:31 | definition of `retrieved_texts`: every page text lower-cased, in retrieved order |
| RetrievalEval.Matches | eval/eval_rag.py:33 | definition of `relevant_found`; it never holds more texts than were retrieved (`RetrievalEval.MatchesExact` states its contents) |
| RetrievalEval.MatchesExact | eval/eval_rag.py:33 | `relevant_found` keeps, in retrieved order, each retrieved text that contains the relevant string as often as it was retrieved, and holds no other text |
| RetrievalEval.MatchesEmpty | eval/eval_rag.py:33-35 | `relevant_found` is empty exactly when no retrieved text contains the relevant string |
| RetrievalEval.FirstRank | eval/eval_rag.py:38-42 | the rank is the 1-based position of a matching text with no match before it, and there is none exactly when no text matches |
| RetrievalEval.FindRank | eval/eval_rag.py:38-42 | the `enumerate` loop that stops at the first match returns that first-match rank |
| RetrievalEval.ReciprocalRank | eval/eval_rag.py:43 | definition of `1 / rank if rank else 0` |
| RetrievalEval.ScoreQuery | eval/eval_rag.py:26-43 | definition of one iteration's metrics or its division error; `RetrievalEval.ScoreQueryContract` states its properties |
| RetrievalEval.ScoreQueryFails | eval/eval_rag.py:36 | a question fails with the division by zero exactly when the retriever returned nothing |
| RetrievalEval.ScoreQueryContract | eval/eval_rag.py:26-43 | after lower-casing both sides: recall is 1 exactly when some retrieved text contains the relevant string; precision is the share of matching texts; the reciprocal rank is 1 over the first match's rank; it is 1 exactly when the top text matches; all three lie in [0, 1] and are positive together |
| RetrievalEval.EvaluateQuery | eval/eval_rag.py:26-43 | one loop iteration computes exactly the per-question metrics, or the division error |
| RetrievalEval.EvaluateRetriever | eval/eval_rag.py:21-58 | the evaluation fails exactly when some question retrieves nothing; otherwise the three lists hold one entry per question in order and the summary is their means |
| RetrievalEval.ScoreAll | eval/eval_rag.py:25-47 | definition of the per-question metrics in dataset order, failing at the first question with nothing retrieved |
| RetrievalEval.Mean | eval/eval_rag.py:54-58 | definition of `np.mean` on exact reals, `None` for the NaN of an empty list |
| RetrievalEval.Summarize | eval/eval_rag.py:54-58 | definition of `results`: the means of the three lists; `RetrievalEval.SummaryContract` states its properties |
| RetrievalEval.ScoreAllCoherent | eval/eval_rag.py:25-47 | a successful evaluation has one entry per question, and each entry's three numbers are coherent |
| RetrievalEval.SumFacts | eval/eval_rag.py:45-47 | the sums of the lists are bounded by their length, the reciprocal-rank sum never exceeds the recall sum, and the precision sum is positive exactly when the recall sum is |
| RetrievalEval.SummaryContract | eval/eval_rag.py:54-58 | each mean is NaN exactly when the dataset is empty; otherwise all three lie in [0, 1], MRR ≤ Recall@k, and Precision@k is positive exactly when Recall@k is |
| AnswerHtml.Esc | web/static/home.js:46 | definition of `esc`: the three global replacements, `&` first; `AnswerHtml.EscIsPerCharacter`, `AnswerHtml.UnescapeEsc` and `AnswerHtml.EscClean` state its properties |
| AnswerHtml.EscapeEach | web/static/home.js:46 | character-wise escaping leaves no `<` or `>` and keeps the number of newlines |
| AnswerHtml.EscIsPerCharacter | web/static/home.js:46 | the three chained global replacements escape every character on its own, so the `&` of an entity is never escaped twice |
| AnswerHtml.UnescapeEsc | web/static/home.js:46 | escaping loses nothing: decoding `&amp;`, `&lt;` and `&gt;` gives the text back |
| AnswerHtml.EscClean | web/static/home.js:46 | the escaped text holds no `<` or `>` and as many newlines as the input |
| AnswerHtml.Trim | web/static/home.js:52 | `trim()` leaves neither end white space and keeps only characters of the line |
| AnswerHtml.TrimShape | web/static/home.js:52 | `trim()` removes only a run of white space at the front and one at the back: the result is the slice of the line between them |
| AnswerHtml.SplitLines | web/static/home.js:47 | splitting at `\r?\n` gives one more line than there are `\n`, no line holds a `\n`, and lines hold only characters of the text |
| AnswerHtml.SplitLinesJoinLf | web/static/home.js:47 | lines without `\n` joined with `\n` split back into the same lines, provided no line but the last ends in `\r` |
| AnswerHtml.SplitLinesJoinCrLf | web/static/home.js:47 | lines without `\n` joined with `\r\n` split back into exactly the same lines |
| AnswerHtml.Classify | web/static/home.js:52-62 | definition of the line test: a bullet when the trimmed line starts with `- ` or `* `, otherwise a paragraph |
| AnswerHtml.ClassifyContent | web/static/home.js:52-62 | a line counts as a bullet exactly when its trimmed form starts with `- ` or `* `; a bullet holds the trimmed line without its first two characters, trimmed again, and any other line holds the trimmed line; the content is trimmed and drawn from the line's characters |
| AnswerHtml.Step | web/static/home.js:53-62 | definition of the tags one line adds: `<ul>` on entering a list and the item, or `</ul>` on leaving one and the paragraph |
| AnswerHtml.Machine | web/static/home.js:49-65 | definition of the `inList` loop's tags, with the final `</ul>`; `AnswerHtml.MachineIsGrouping`, `AnswerHtml.MachineElements` and `AnswerHtml.MachineWellFormed` state its properties |
| AnswerHtml.MachineInRun | web/static/home.js:54-65 | inside a list the machine emits one `<li>` per line of the bullet run, then one `</ul>`, and carries on outside any list |
| AnswerHtml.MachineIsGrouping | web/static/home.js:49-65 | the `inList` machine emits exactly the tags of the reference grouping into maximal bullet runs and paragraphs |
| AnswerHtml.MachineElements | web/static/home.js:51-63 | without the list brackets, the emitted elements are one per line in line order: `<li>` for a bullet, `<p>` for any other line |
| AnswerHtml.MachineWellFormed | web/static/home.js:54-65 | items occur only inside a list and paragraphs only outside it; every list opens before an item, closes before a paragraph or at the end, and is never nested or empty |
| AnswerHtml.ParseRenderAll | web/static/home.js:55-66 | when no element's content holds `<`, the joined HTML reads back as exactly the emitted tags |
| AnswerHtml.ToHtmlShape | web/static/home.js:43-67 | for a non-empty text the HTML has one element per line of the escaped text (one more than the text's newlines), in order; its lists are well formed; no element holds `<` or `>`; and it reads back as exactly the reference tags |
| AnswerHtml.EmitLine | web/static/home.js:52-63 | one iteration pushes the rendering of the machine's step for the classified line and leaves `inList` true exactly for a bullet; a blank paragraph line gives `<p></p>` |
| AnswerHtml.ToHtml | web/static/home.js:43-67 | definition of the returned string: `''` for the empty text, otherwise the joined rendering; `AnswerHtml.ToHtmlShape` states its shape |
| AnswerHtml.FormatTextToHtml | web/static/home.js:43-67 | the empty text gives the empty string; otherwise the joined `out` array is the rendering of the reference blocks of the escaped lines |
| AnswerSelect.Truthy | web/static/home.js:226 | definition of JavaScript truthiness on JSON values and `undefined` |
| AnswerSelect.And | web/static/home.js:226 | JavaScript `&&` returns one of its operands and is truthy exactly when both are |
| AnswerSelect.Or | web/static/home.js:226 | JavaScript `\|\|` returns one of its operands and is truthy exactly when one is |
| AnswerSelect.Get | web/static/home.js:226 | a property read is defined exactly for an object that has the key |
| AnswerSelect.Answer | web/static/home.js:226 | definition of the expression, operator for operator; `AnswerSelect.AnswerIsFirstTruthy` states what it selects |
| AnswerSelect.AnswerIsFirstTruthy | web/static/home.js:226 | the expression gives the first truthy value among `answer`, `text` and `reply`, and `JSON.stringify(data)` when there is none |
| AnswerSelect.FirstTruthyFound | web/static/home.js:226 | a selected value is truthy and belongs to one of the keys; when none is selected, every key is falsy or missing |

## Left out

- The Qdrant client and vector store, the HuggingFace embeddings, the Groq LLM, and the LangChain chain and prompt (`web/vrag.py`, `RAG/rag.py`) are not part of this model. They are foreign calls; score filtering and top-k selection happen inside the retriever, which is the parameter `retrieve`.
- `RecursiveCharacterTextSplitter` (chunk size 350, overlap 50, separators `.` and `\n` at embedd_data/embedding_json.py:32-39) is the uninterpreted parameter `split`. No size, overlap or non-emptiness of pieces is claimed.
- `embedd_data/embedding_pdf.py`, `web/server.py` and `embedd_data/qdsnap.py` are not part of this model: a loader and splitter call, an HTTP shim and a network request.
- File reading and JSON loading (embedd_data/embedding_json.py:52-53, eval/eval_rag.py:18-19), every `print`, the `Total chunks` report and the `add_texts` call are I/O and are left out. Records arrive as typed values, so a missing JSON key (`KeyError`) is not modelled.
- `Chunking.Nutrient`: `nutrients.items()` of a dictionary is modelled as the sequence of its entries in iteration order. The key uniqueness the dictionary guarantees is not used by any proof. Names and values are strings; Python's `str()` of a number inside the f-strings is not modelled.
- `RetrievalEval.LowerChar`: `str.lower()` is modelled on the ASCII letters only. Unicode case mapping, including mappings that change the length, is not modelled.
- `RetrievalEval.Mean`: `np.mean` works in IEEE floats. The model uses exact reals, so rounding is not captured; NaN is `None`.
- The `top_k` parameter of `evaluate_retriever` only labels the output keys and print lines. The retriever's own `k` is inside `retrieve`.
- `AnswerHtml.FormatTextToHtml`: it takes a string. The `!text` test for `null`, `undefined` or other non-string falsy values is reduced to the empty string.
- `AnswerHtml.EmitLine`: the loop body pushes its pieces onto `out` one at a time. The model collects one line's pieces and appends them together, which gives the same array.
- `AnswerSelect.Truthy`: JavaScript numbers are reals here, so a NaN number is not represented. `JSON.stringify` is a parameter.
- The body parsing at web/static/home.js:224 (`resp.json()`, then `resp.text()` as the fallback) is response I/O and is not modelled. Everything else in `web/static/home.js` (DOM work, `fetch`, clipboard, timers, and the duplicated `setLoading` and `sendQuestion`) is UI code and is left out.
