# aws-transcriber: the transcript reshaper and run grouping, in Dafny

`aws-transcriber.py` sends an audio file to a speech-to-text service. It then
turns the word-level result into a Word document. The original logic it holds
is in two steps, and this project models them and proves what they guarantee:

- **The transcript reshaper** (`get_transcription_data`). It starts from a
  loaded result: speaker segments `(label, start, end)` and recognition items
  (punctuation or pronounced words with times and a confidence). It builds one
  paragraph per segment, keyed `1..n`. A paragraph has a header
  `[HH:MM:SS] Speaker x`, an accumulated text, and one confidence per appended
  word. Its quirks are reproduced as written:
  - every segment's scan restarts at the first item;
  - every punctuation item reached is appended, even one belonging to an
    earlier speaker;
  - a word ending exactly at the segment end is appended even when it started
    earlier;
  - the first word ending after the segment stops the scan;
  - leading ASCII punctuation is then removed with `lstrip`.
- **Run grouping** (`write_to_doc`). Each paragraph's text is split on
  whitespace and zipped with its confidences. Words of medium confidence
  `[0.5, 0.85]` become yellow runs, words below 0.5 (and not 0) become red
  runs, and each highlighted run is preceded by the plain text accumulated
  before it.

Two small helpers are modelled as well: the `[HH:MM:SS]` timestamp computed with
`gmtime`, and the `s3://bucket/object` URI returned by `upload_file`.

Modules:
- `Text` holds the Python string operations used: `lstrip`, `str.split()`
  with Python's whitespace set, and the punctuation set.
- `Clock` holds `gmtime`/`strftime` as far as the timestamp needs them.
- `Reshaper` is the reshaper. `GetTranscriptionData` and `ScanSegment` are
  its loops, proved equal to the reference functions `Reshape` and
  `ScanItems`.
- `ReshaperProperties` is what a paragraph and the transcript hold.
- `Renderer` is the run grouping. `AddRuns` and `WriteToDoc` are its loops,
  proved equal to `ParagraphRuns`.
- `RendererProperties` is what the runs spell out and highlight.
- `Pipeline` says when the two steps fit word for word.
- `Upload` is the URI.

The transcript is a sequence of `Entry(key, paragraph)` in insertion order,
which is the iteration order of the Python dictionary. The document is a
sequence of blocks: a header paragraph, then a paragraph of runs, per entry.

Behaviour of the code that is easy to misread, which the model follows:
- `lstrip` removes only leading punctuation characters, so the space in front
  of the first word stays. The stored text for "Hi", "!", "Bob" is `" Hi! Bob"`
  (`ReshaperProperties.SingleSegmentExample`), and `"! Hello world."` becomes
  `" Hello world."` (`Text.LStripKeepsSpace`).
- The header is the timestamp, then `" Speaker "`, then the last character of
  the label. It is not the label itself.
- Red is given to every confidence below 0.5 other than 0, negative
  confidences included. It is not limited to the open interval (0, 0.5).
- Every flush calls `add_run` even when nothing was accumulated. A paragraph
  therefore has `2h + 1` runs for `h` highlighted words, some of them empty
  (`RendererProperties.RenderExample`).
- A segment with an empty speaker label makes `label[-1]` raise `IndexError`.
  The model returns `Failure(EmptySpeakerLabel(i))` for the first such
  segment `i` (0-based).

## Model

| member | source | states |
|---|---|---|
| Reshaper.GetTranscriptionData | aws-transcriber.py:91-128 | the loop over segments returns exactly `Reshape` (the error at the first empty label, or `Entries`: one entry per segment keyed from 1, each `ParagraphFor` the segment) |
| Reshaper.ScanSegment | aws-transcriber.py:106-119 | the inner loop over the items, with its `break`, accumulates exactly the text and confidences of `ScanItems`, the recursive definition of the same four branches |
| Reshaper.FirstEmptyLabel | aws-transcriber.py:96-99 | the index where `label[-1]` first fails: every earlier label is non-empty and that one is empty, or there is none |
| ReshaperProperties.ReshapeOutcome | aws-transcriber.py:91-127 | `Reshape`'s result is an error exactly when some label is empty, naming the first; otherwise it has one entry per segment, keyed `k+1` in segment order, holding that segment's paragraph over the whole item list |
| ReshaperProperties.StopIndex | aws-transcriber.py:118-119 | the position of the first word ending after the segment: no earlier item stops the scan, and that one does |
| ReshaperProperties.ScanIsAppended | aws-transcriber.py:108-119 | a segment's scan (`ScanItems`) accumulates the items up to the stopping item that it appends (all punctuation, words inside the segment or ending at its end): punctuation as is, words after a space, with the words' confidences |
| ReshaperProperties.OneConfidencePerWord | aws-transcriber.py:109-117 | the appended items carry exactly one confidence per word, in word order, and punctuation carries none |
| ReshaperProperties.ParagraphContents | aws-transcriber.py:106-127 | in the paragraph stored for a segment (`ParagraphFor`), the text is the accumulated text with only its leading run of punctuation characters removed and never begins with one; the confidences are those of the appended words, one each, in order |
| ReshaperProperties.ScanIgnoresLaterItems | aws-transcriber.py:108-119 | two item lists that agree up to and including the stopping item give the same scan: nothing after it is read |
| ReshaperProperties.PunctuationAddsNoConfidence | aws-transcriber.py:109-111 | removing any punctuation item leaves a segment's confidences unchanged |
| ReshaperProperties.HeaderLayout | aws-transcriber.py:98-102 | the header (`Header`) is the 10-character timestamp, `" Speaker "` and the label's last character, and the timestamp reads back as the time of day of the segment start |
| ReshaperProperties.ExampleScan | aws-transcriber.py:108-117 | "Hi" (0.95), "!", "Bob" (0.4) inside a segment accumulate `" Hi! Bob"` with confidences `[0.95, 0.4]` |
| ReshaperProperties.ExampleHeader | aws-transcriber.py:99-102 | a segment of speaker `spk_0` starting at 0 gets the header `[00:00:00] Speaker 0` |
| ReshaperProperties.SingleSegmentExample | aws-transcriber.py:91-127 | that segment gives the one entry `1: ("[00:00:00] Speaker 0", " Hi! Bob", [0.95, 0.4])`, the leading space kept |
| ReshaperProperties.RescanExample | aws-transcriber.py:108-119 | the second speaker's scan, started again from the first item, picks up the previous speaker's full stop |
| ReshaperProperties.BoundaryWordExample | aws-transcriber.py:115-117 | a word starting before the segment and ending exactly at its end is appended |
| ReshaperProperties.EarlyStopExample | aws-transcriber.py:118-119 | a word ending after the segment stops the scan before a later word inside the segment |
| Clock.ClockOf | aws-transcriber.py:102 | the `gmtime` hour, minute and second of `t` are in range and are `floor(t)` modulo one day |
| Clock.ClockOfUnique | aws-transcriber.py:102 | those fields are the only in-range ones congruent to `floor(t)` modulo one day |
| Clock.TwoDigits | aws-transcriber.py:102 | `%H`, `%M` and `%S` print two decimal digits whose value is the field |
| Clock.Timestamp | aws-transcriber.py:102 | the timestamp has 10 characters, with `[`, `:`, `:` and `]` at positions 0, 3, 6 and 9 |
| Clock.TimestampShowsClock | aws-transcriber.py:102 | the other six characters are digits, and they read back as the hour, minute and second of `t` |
| Clock.TimestampExample | aws-transcriber.py:102 | 3661 seconds are shown as `[01:01:01]` |
| Text.LStripRemovesPrefix | aws-transcriber.py:127 | `lstrip` removes a prefix made only of set characters, and what is left does not start with one |
| Text.LStripPrefix | aws-transcriber.py:127 | a prefix of set characters followed by a character outside the set is removed exactly |
| Text.LStripKeepsSpace | aws-transcriber.py:127 | `"! Hello world."` is stored as `" Hello world."` |
| Text.SplitSpaced | aws-transcriber.py:140 | whitespace `split()` (`Split`, scanning characters with `SplitFrom`) of words, each written after a space, gives back exactly those words |
| Renderer.Classify | aws-transcriber.py:143-153 | yellow exactly for `[0.5, 0.85]`, red exactly below 0.5 other than 0, plain exactly for 0 or above 0.85 |
| Renderer.Zip | aws-transcriber.py:140 | `zip` pairs the i-th word with the i-th confidence, for as many pairs as the shorter list |
| Renderer.AddRuns | aws-transcriber.py:135-154 | the loop over zipped words, with its flushes, adds exactly the runs of `ParagraphRuns`, which is the recursive `RunsFrom` over the zipped split words |
| Renderer.WriteToDoc | aws-transcriber.py:130-154 | for every entry in order, the document gets its header paragraph, then a paragraph with the runs of its text and confidences |
| RendererProperties.RunsFromText | aws-transcriber.py:140-154 | the runs of `RunsFrom` spell out the pending text followed by `" " + w` for every zipped word |
| RendererProperties.RunsFromHighlighted | aws-transcriber.py:143-151 | the highlighted runs are the words of confidence in `(0, 0.85]` (or negative), in order, each its own run, yellow from 0.5 and red below |
| RendererProperties.FlaggedCount | aws-transcriber.py:143-151 | as many words are highlighted as have a non-zero confidence up to 0.85 |
| RendererProperties.RunsFromShape | aws-transcriber.py:143-154 | there are `2h + 1` runs for `h` highlighted words, plain and highlighted alternating, plain first and last |
| RendererProperties.PairWordsOfZip | aws-transcriber.py:140 | the words that `zip` keeps are the first `min(#words, #confidences)` |
| RendererProperties.ParagraphRunsText | aws-transcriber.py:140-154 | a paragraph's runs spell out `" " + w` for its first `min(#words, #confidences)` words; later words are dropped |
| RendererProperties.ParagraphRunsHighlights | aws-transcriber.py:140-154 | a paragraph's highlighted runs are its low-confidence words, one run each, as many as such words, between plain runs |
| RendererProperties.ExampleWords | aws-transcriber.py:140 | `" cat dog fox".split()` is `["cat", "dog", "fox"]` |
| RendererProperties.RenderExample | aws-transcriber.py:135-154 | confidences 0.9, 0.6, 0.2 give runs `" cat"`, yellow `" dog"`, `""`, red `" fox"`, `""` |
| Pipeline.StoredTextIsGroups | aws-transcriber.py:106-127 | when words are single tokens and punctuation is ASCII punctuation, the stored text is each word with its trailing punctuation, after a space |
| Pipeline.ParagraphWordsAligned | aws-transcriber.py:106-154 | for such items, `split()` of the stored text gives exactly one token per stored confidence, the j-th starting with the j-th word; `zip` drops nothing, and the runs spell out the stored text |
| Upload.JobUriRoundTrip | aws-transcriber.py:10-16 | for a bucket name without `/`, the returned URI (`JobUri`, `"s3://" + bucket + "/" + ObjectName`) reads back as that bucket and the object name used |
| Upload.JobUriDefaultsToFileName | aws-transcriber.py:10-11 | without an object name (`ObjectName` of `None`), the URI names the local file name |

## Left out

- The storage upload, the vocabulary creation and polling, and the transcription job start and polling (aws-transcriber.py:12-13, 31-48, 53-82) are calls to external services with `time.sleep` polling and wall-clock timing, and are not modelled.
- `create_vocab_table` (aws-transcriber.py:18-28) is CSV input and output through pandas plus a phoneme dictionary lookup, and is not modelled.
- Reading the JSON file and the bare `except` that falls back to the argument (aws-transcriber.py:86-90) are file input; `GetTranscriptionData` starts from the already loaded segments and items.
- The `float(...)` parsing of times and confidences is left out; they are given as exact reals, and binary floating-point rounding is not modelled.
- Item types other than `punctuation` and `pronunciation` do not occur in the service's output and are not representable; as a result the branches at aws-transcriber.py:115-119 only ever see words.
- A missing key in the loaded data, such as a word without times, raises `KeyError` in the source; these cases are not representable in the typed items.
- `gmtime`'s range limits and platform errors for extreme times are not modelled; any real start time has a timestamp.
- The `docx` document object, its fonts and `doc.save` (aws-transcriber.py:131, 155) are represented by the sequence of blocks and runs written into it.
- The `print` calls (aws-transcriber.py:14, 103, 120, 126) have no effect on the result and are left out.
- Pipeline.ParagraphWordsAligned: holds only for words that are single whitespace-free tokens and punctuation made of ASCII punctuation characters; for other inputs `split()` may yield more or fewer tokens than confidences, and `ParagraphRunsText` then says what is dropped.
- Upload.JobUriRoundTrip: requires the bucket name to hold no `/`, as storage bucket names never do; with one the URI is ambiguous.
