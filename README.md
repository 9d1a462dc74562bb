# Smart Text Summarizer — text shaping, modelled in Dafny

The summarizer turns a document into a summary in stages. It splits the text
into sentences, then groups the sentences into overlapping windows, closing a
window when the next sentence would push its word count over `max_words`
(`sentence_chunking`). It puts a style instruction in front of
each chunk when the model is T5 (`apply_style_prompt`), summarizes each chunk
with a Hugging Face model, and reformats the joined summaries as bullets or
headlines (`post_process`). The result can be laid out on PDF pages
(`save_summary_as_pdf`). The Streamlit front end (`app.py`) counts the words of
the input, derives the summary length targets, and maps its labels to the codes
the summarizer understands.

This project models the deterministic parts of that pipeline and proves what
they guarantee:

- `strings.dfy` (module `Strings`): Python's `str.split()` with `str.isspace`
  as its separator set, `sep.join`, word counts and their laws.
- `chunking.dfy` (module `Chunking`): the chunking loop as a method over lists
  (`SentenceChunking`). It is proved equal to a specification `Run` that follows
  the same loop over sentence positions. The properties of the windows are
  lemmas about `Run`: contiguity, overlap, coverage, count bound, when a window
  of no sentences appears, and why windows may exceed `max_words`.
- `summarizer.dfy` (module `Summarizer`): the `MODELS` fallback lookup, the
  style prompt, and the post-processor. Sentence segmentation is a function
  parameter.
- `pdf.dfy` (module `PdfLayout`): the pagination loop of `save_summary_as_pdf`
  as a method that records the canvas calls it makes (`Paginate`). It is proved
  equal to the recursive specification `Layout`, and `LayoutAt` gives the place
  of every line in `Layout` in closed form.
- `app.dfy` (module `App`): the UI label maps, Auto and Manual length targets,
  and the styling of the chunks before summarization.

The chunker does not keep chunks within `max_words`. It closes a chunk only
when the next sentence would overflow it. It then reseeds the next chunk with
`chunk[-overlap:]`, which counts sentences, not words. Whenever that carries
the whole closed chunk (always for `overlap = 0`, and for the default
`overlap = 50` whenever the chunk has at most 50 sentences), the next chunk
holds more than `max_words` words (`Chunking.WholeCarryOverflows`).
`Chunking.OversizeWindowIsSeed` states exactly which chunks can be over the
limit.

## Model

| member | source | states |
|---|---|---|
| Strings.IsSpace | summarizer.py:73 | `str.isspace`, the separator set of `split()` here and at app.py:68: exactly Python's 29 whitespace characters |
| Strings.IsSpaceAscii | summarizer.py:73 | among ASCII characters `isspace` holds exactly of tab, line feed, vertical tab, form feed, carriage return, U+001C..U+001F and the space; nothing above U+3000 is whitespace |
| Strings.Split | summarizer.py:73 | `sentence.split()`: a sentence ending in a non-whitespace character has a non-empty last token |
| Strings.SplitYieldsWords | summarizer.py:73 | every token of `split()` is non-empty and free of whitespace |
| Strings.SplitKeepsContent | summarizer.py:73 | gluing the tokens of `split()` back together gives the input with only its whitespace removed |
| Strings.SplitSnocSpace | summarizer.py:73 | a whitespace character appended to a sentence adds no token |
| Strings.SplitSnocExtend | summarizer.py:73 | a non-whitespace character right after another extends the last token |
| Strings.SplitSnocNew | summarizer.py:73 | a non-whitespace character at the start or after whitespace opens a new token |
| Strings.SplitAfterSpace | summarizer.py:73-75 | when the left part ends in whitespace, the tokens of the concatenation are those of each part in turn |
| Strings.WordCount | app.py:68 | `len(text.split())`, also used per sentence at summarizer.py:73-74: at most one word per character |
| Strings.SplitLength | summarizer.py:73 | `split()` yields no more tokens than the text has characters |
| Strings.Join | summarizer.py:41-43 | `sep.join(ws)`, also used with `" "` at summarizer.py:75 and 83: a non-empty list's join starts with its first element |
| Strings.SumWords | summarizer.py:77 | `sum(len(s.split()) for s in chunk)`: at least the words of the first and of the last sentence |
| Strings.StartsWith | summarizer.py:29 | `model_name.startswith("t5")`: true exactly when the name is at least as long as the prefix and agrees with it at every position |
| Strings.WordCountIsWordStarts | app.py:68 | `len(input_text.split())` is the number of positions where a non-whitespace character follows whitespace or the start |
| Strings.JoinedWordCount | summarizer.py:75-77 | the text `" ".join(chunk)` has exactly as many words as its sentences together |
| Strings.JoinBehindMarker | summarizer.py:41-43 | `m + m.join(ws)` for non-empty `ws` is each sentence preceded by its own marker, in order |
| Strings.MarkedLineCount | summarizer.py:41-43 | a marker holding one line break in front of each of the break-free sentences gives one line break per sentence |
| Chunking.SliceStart | summarizer.py:76 | Python's start index of `x[i:]`: clamped to the list, counted from the end for negative `i` |
| Chunking.CarryOver | summarizer.py:76 | `chunk[-overlap:]` is a suffix of the closed chunk; it has `min(overlap, len)` sentences for `overlap >= 1`, is the whole chunk for `overlap = 0`, and is shorter by `min(-overlap, len)` for negative `overlap` |
| Chunking.Run | summarizer.py:69-80 | the loop state after `n` sentences: the open chunk starts strictly before `n` once a sentence was seen, and every emitted window ends before `n` |
| Chunking.Step | summarizer.py:74-80 | one pass of the loop body never moves the start of the open chunk past the current sentence |
| Chunking.CloseStep | summarizer.py:74-80 | a closing pass emits `" ".join(chunk)`, reseeds with `chunk[-overlap:]` plus the sentence, and counts the carried words afresh |
| Chunking.KeepStep | summarizer.py:79-80 | a non-closing pass appends the sentence and adds its words, and emits nothing |
| Chunking.FinishStep | summarizer.py:82-84 | the final accumulator is emitted exactly when it is non-empty |
| Chunking.Spans | summarizer.py:82-84 | the emitted windows, closed ones then the final non-empty accumulator, all lie inside the input |
| Chunking.CountWords | summarizer.py:77 | `sum(len(s.split()) for s in chunk)` computed by a loop equals the word total of the chunk |
| Chunking.Chunks | summarizer.py:67-84 | the list `sentence_chunking` returns: one joined text per window |
| Chunking.CloseIteration | summarizer.py:74-80 | a closing pass on the loop variables leads to the loop state of the next sentence |
| Chunking.KeepIteration | summarizer.py:79-80 | a non-closing pass on the loop variables leads to the loop state of the next sentence |
| Chunking.FinishIteration | summarizer.py:82-84 | from the loop state after the last sentence, the final append gives exactly the chunks of the specification |
| Chunking.Pass | summarizer.py:72-80 | one iteration of the loop body keeps the loop state |
| Chunking.SentenceChunking | summarizer.py:67-84 | the loop returns exactly the joined windows the specification `Run` describes |
| Chunking.WordCountInvariant | summarizer.py:74-80 | `word_count` always equals the word total of the sentences in `chunk`, after a carry-over and after each append |
| Chunking.StepCounts | summarizer.py:74-80 | one pass keeps `word_count` equal to the words of `chunk` |
| Chunking.ChainedSnoc | summarizer.py:75-76 | appending a window linked to the last one keeps the windows chained |
| Chunking.StepChained | summarizer.py:74-79 | one pass keeps the windows chained and the open chunk starting at the carried sentences |
| Chunking.RunChained | summarizer.py:74-79 | the first window starts at sentence 0; each next window starts where `chunk[-overlap:]` cuts its predecessor and ends strictly later |
| Chunking.RunClosedGrows | summarizer.py:74-75 | windows once emitted are never changed: the emitted list only grows |
| Chunking.StepClosedGrows | summarizer.py:75 | one pass only ever appends to the emitted chunks |
| Chunking.StepWereFull | summarizer.py:74-75 | one pass closes a chunk only when its next sentence would push it over `max_words` |
| Chunking.RunClosedWereFull | summarizer.py:74-75 | every window was closed because its next sentence would push it over `max_words` |
| Chunking.RunFitsOrSeed | summarizer.py:74-80 | every window, and the open chunk, is within `max_words` or is a seed: carried sentences plus one new sentence |
| Chunking.StepFitsOrSeed | summarizer.py:74-80 | one pass keeps every window, and the open chunk, within `max_words` or a seed |
| Chunking.SpansFromRun | summarizer.py:82-84 | no sentences give no windows; otherwise the windows are the closed ones plus the non-empty open chunk |
| Chunking.SpansChained | summarizer.py:72-83 | the windows run from sentence 0 to the last sentence, each chained to the next |
| Chunking.WindowAt | summarizer.py:75 | each chunk is its window's sentences, a contiguous slice of the input, joined with single spaces |
| Chunking.FinalChunkIsOpenChunk | summarizer.py:69-84 | the result is empty iff there are no sentences; otherwise the last chunk is the join of the final accumulator, which is non-empty |
| Chunking.WindowsOverlap | summarizer.py:75-79 | window `k + 1` is `chunk[-overlap:]` of window `k` followed by the next input sentences, in order |
| Chunking.WindowOverlapAt | summarizer.py:75-79 | the same overlap statement for one pair of consecutive windows |
| Chunking.ChainCovers | summarizer.py:72-83 | windows chained from position 0 to `n` cover every position below `n` |
| Chunking.Coverage | summarizer.py:72-83 | every input sentence appears in some window, at its own position there |
| Chunking.ChainEndsClimb | summarizer.py:74-79 | each emission advances the window end by at least one sentence |
| Chunking.ChunkCountBound | summarizer.py:72-83 | at most one chunk per sentence plus one; the bound is reached only if the first window holds no sentences |
| Chunking.EmptyWindowIff | summarizer.py:74-79 | some window holds no sentences (and is emitted as the empty string) iff the first sentence alone has more than `max_words` words; that window is then the first, and the sentence opens the second window |
| Chunking.EmptyWindowIsFirst | summarizer.py:74-79 | only the first window can hold no sentences, and only when the first sentence is over `max_words` |
| Chunking.OversizeFirstSentence | summarizer.py:74-79 | a first sentence over `max_words` gives a first window of no sentences and starts the second window, which is non-empty |
| Chunking.ClosedWindowsFull | summarizer.py:74-75 | every chunk but the last, plus the sentence after it, exceeds `max_words` |
| Chunking.ClosedWindowFullAt | summarizer.py:74-75 | the same statement for one closed chunk |
| Chunking.OversizeWindowIsSeed | summarizer.py:74-80 | a chunk over `max_words` is either the first chunk with at most one sentence, or holds the carried sentences plus exactly one new sentence |
| Chunking.ChunkWordCount | summarizer.py:73-77 | the text of each chunk has as many words as its window's sentences together |
| Chunking.SumWordsAppend | summarizer.py:77 | the word totals of two lists of sentences add up |
| Chunking.WholeCarryOverflows | summarizer.py:74-80 | when `chunk[-overlap:]` carries a closed chunk over whole, the next chunk extends it and exceeds `max_words` |
| Chunking.WholeCarryAt | summarizer.py:74-80 | the same statement for one closed chunk |
| Chunking.ExtendedOverflows | summarizer.py:74-77 | sentences that were full before their next sentence stay over the limit once extended by it |
| Summarizer.ResolveModel | summarizer.py:16-23 | `MODELS.get(choice, MODELS["1"])`: a known code picks its model, any other picks BART, and the result is always one of the three models |
| Summarizer.OnlyChoiceTwoIsT5 | summarizer.py:16-29 | the resolved model name starts with "t5" iff the choice is "2" |
| Summarizer.ApplyStylePrompt | summarizer.py:28-37 | the text is always a suffix of the prompt; it is unchanged iff the model is not T5; for T5 exactly one prefix is added, the bullet one iff style "2", the headline one iff style "3", and the default one otherwise |
| Summarizer.PromptsApart | summarizer.py:31-35 | the three instructions differ at a fixed position, so none is a prefix of another |
| Summarizer.PromptDeterminesChunk | summarizer.py:28-37 | for a T5 model, equal prompts come from equal texts and the same style family |
| Summarizer.MarksHoldOneBreak | summarizer.py:41-43 | the bullet and dash markers each hold exactly one line break |
| Summarizer.PostProcess | summarizer.py:39-45 | any style other than "2" and "3" returns the summary unchanged |
| Summarizer.DefaultPostProcessIdempotent | summarizer.py:44-45 | post-processing with the default style is idempotent |
| Summarizer.ListStylesMarkEverySentence | summarizer.py:39-43 | styles "2" and "3" give the bare marker for no sentences, and otherwise every sentence behind its own marker, in order |
| Summarizer.ListStylesLineCount | summarizer.py:39-43 | styles "2" and "3" give one line break per sentence when the sentences hold no line breaks, so each sentence is on its own line |
| PdfLayout.Layout | summarizer.py:130-135 | the canvas calls for the wrapped lines: one `drawString` per line, preceded by a `showPage` when a page is full, so between `n` and `2n` calls for `n` lines |
| PdfLayout.FilledFacts | summarizer.py:131-135 | a page is full after 51 lines, and a new page starts exactly then |
| PdfLayout.Paginate | summarizer.py:130-135 | the loop makes exactly the canvas calls of the recursive layout `Layout`, whose closed form is `LayoutAt` |
| PdfLayout.DrawIndexFacts | summarizer.py:130-135 | line `n` is drawn after the `n` earlier lines and their page breaks; a page break adds one event |
| PdfLayout.LayoutLength | summarizer.py:130-135 | the loop makes one `drawString` call per line plus one `showPage` call per page break |
| PdfLayout.LayoutAt | summarizer.py:130-135 | line `i` is drawn at `(50, 800 - 15 * (i mod 51))` as event `i + i / 51`, right after a new page exactly when `i` is a positive multiple of 51 |
| PdfLayout.LayoutEvents | summarizer.py:127-135 | line `i` is drawn at `(50, 800 - 15 * (i mod 51))`; a new page comes right before it exactly when `i` is a positive multiple of 51; there are `PageBreaks(n)` page breaks (none for no lines, otherwise `(n - 1) / 51`) and no other calls |
| PdfLayout.DrawsWithinMargins | summarizer.py:127-135 | every line is drawn at `x = 50` with `50 <= y <= 800` |
| PdfLayout.DrawnEventIsALine | summarizer.py:130-134 | every `drawString` call draws one of the lines, at the height of its place |
| App.UiMapsAreTotalAndDistinct | app.py:72-81 | `model_map` and `style_map` are defined on exactly their select-box options and send them one-to-one onto "1", "2", "3" |
| App.LoadedModel | app.py:72-73 | every UI model choice is found in `MODELS`, so the fallback is never taken, and only "T5" loads a T5 model |
| App.AutoTargets | app.py:76-78 | Auto mode: `max_len` is the larger of 30 and the whole part of `0.3 * w`, and `min_len` the larger of 10 and the whole part of `0.1 * w` |
| App.AutoTargetsOrdered | app.py:77-78 | Auto mode always gives `min_len <= max_len` |
| App.AutoTargetsExamples | app.py:77-78 | 200 words give 60 and 20; up to 100 words give the floors 30 and 10 |
| App.AutoTargetsMonotone | app.py:77-78 | both Auto targets are non-decreasing in the word count |
| App.LengthTargets | app.py:46-78 | Auto mode gives exactly the Auto targets of the word count, Manual mode passes the slider values (at most 512); in either mode `10 <= min_len <= max_len` and `max_len >= 30` |
| App.SlidersAllow | app.py:47-48 | the pairs the Manual sliders can show: `max_len` in 50..512 and `min_len` in 10..`max_len`, so `min_len` never leaves 10..512 |
| App.MinSliderEnds | app.py:47-48 | for every Max Length, both ends of the Min Length slider, 10 and `max_len`, are allowed |
| App.ManualDefaultAllowed | app.py:47-48 | the slider defaults 130 and 30 are within the sliders' bounds, and the Min Length default 30 stays allowed for every Max Length from 50 to 512 |
| App.StyledChunks | app.py:86 | element `i` is `apply_style_prompt` of chunk `i`, so there is one prompt per chunk, in order, each ending with its chunk; a non-T5 model leaves the chunks unchanged |
| App.PreparedChunks | app.py:85-86 | the chunks sent for summarization are the chunks of `sentence_chunking(text, max_words=500)`, each styled for the loaded model's style code; as many as those chunks, and equal to them for any model but T5 |

## Left out

- `sent_tokenize` (NLTK Punkt) and the `nltk.download` calls are foreign code with global state. The chunker takes the sentence list as input, and `post_process` takes the segmenter as a function parameter.
- `summarize_chunk` and the tokenizer and model loading in `load_model` are calls into the transformers library. Only the model-name lookup is modelled.
- `summarize_all_chunks` runs a thread pool, and `as_completed` returns summaries in completion order, which is not deterministic. The joining of the summaries at app.py:88 is therefore not modelled either.
- `extract_text_from_file` is file-system I/O with PDF, Word and PowerPoint parsers.
- `evaluate_summary` calls a ROUGE library that returns floating-point scores.
- `textwrap.wrap` and the reportlab canvas are library code. The pagination takes the wrapped lines as input and records the canvas calls as events instead of drawing.
- The Streamlit widgets, temp-file writes, warnings and download buttons of app.py are UI and I/O. The Manual sliders appear only through the bounds they allow.
- App.AutoTargets: replaces `int(w * 0.3)` and `int(w * 0.1)` on floats by `w * 3 / 10` and `w / 10` on integers. These agree for realistic word counts, but floating-point rounding is not modelled.
- Chunking.SentenceChunking: Python lists become Dafny sequences, so the in-place `append` on `chunks` and `chunk` is modelled as reassignment. Nothing else holds these lists, so no aliasing is lost.
