# Post-annotation batch, modelled in Dafny

This project models the deterministic part of the post-annotation batch script
`preprocess.py` of a LinkedIn post generator. The script reads a JSON corpus of
posts. For each post it sanitises the text, asks a language model for the post's
line count, language and topic tags, and overlays that metadata on the post. A
post whose processing raises is logged and skipped. At the end the script writes
the enriched corpus and the set of all tags, unless the output path is the
string `"None"`.

The language-model chain, the JSON output parser and `sanitize_unicode` are
capabilities the script uses but does not define. Here they are parameters, as
the `Services` record: `sanitize: string -> string`,
`invoke: string -> Reply` (a reply text or a failed call), and
`parse: string -> ParseOutcome` (a value, an `OutputParserException`, or some
other exception). Every Python exception the code can meet is a `Json.Error`
value in a `Result`. The model has no preconditions that rule out malformed
posts or replies.

Modules, leaves first:

- `Json` (json.dfy): decoded JSON values, records (`map<string, Value>`), file
  dumps, error kinds and `Result`.
- `Seqs` (seqs.dfy): order-preserving filtering and subsequences.
- `Text` (text.dfy): ASCII lower-casing, `truncate_text`, `str.find` and
  `str.replace`.
- `Extract` (extract.dfy): `extract_metadata` after the model call. It holds the
  tag filter, the tag assignment on the parsed object and the parse-failure
  default.
- `Batches` (batch.dfy): the failure-isolating `for`/`try`/`except` loop,
  generic over the per-item step.
- `Annotate` (annotate.dfy): the per-post step of `process_posts` and the
  `post | metadata` overlay.
- `Tags` (tags.dfy): `get_unified_tags`, meaning the tag union, its listing and
  the tag-index path.
- `Pipeline` (pipeline.dfy): `process_posts` as a whole.

Python's `post | metadata` is Dafny's right-biased map union `post + metadata`.
`Annotate.IsOverlay` states what that union means and proves it unique.
`list(unified_tags)` has no defined order, so `Tags.ListTags` is a method that
picks elements in an arbitrary order. It promises only that every element of
the set appears exactly once.

Facts about `preprocess.py` that the contracts reflect:

- No code enforces the prompt's "at most two tags", so no contract bounds the
  number of tags.
- The "no output path" case is the literal string `"None"` (preprocess.py:33,
  56), not an absent value.
- A parsed reply without `tags`, or one that is not an object, is not a parse
  failure. The exception escapes `extract_metadata` and the post is skipped; it
  does not get default metadata (`Annotate.MissingTagsSkipsPost`).
- Only the first 5000 characters reach the model (`Text.TruncateSeesOnlyPrefix`,
  `Extract.ExtractSeesOnlyPrefix`).
- `post['text']` is replaced in the dict itself before the metadata is
  extracted, so a post whose metadata step raises is logged with its sanitised
  text (`Annotate.EnrichStep`, `Annotate.LateFailureLogsSanitisedPost`).

## Model

| member | source | states |
|---|---|---|
| Text.TruncateTo | preprocess.py:16-18 | the result is a prefix of the text; its length is the text's length when that is at most `max_length`, otherwise `max_length` |
| Text.Truncate | preprocess.py:16-18 | with the default 5000: a prefix of at most 5000 characters; the text itself when it is no longer than that; exactly 5000 characters otherwise |
| Text.TruncateIdempotent | preprocess.py:16-18 | truncating a truncated text changes nothing |
| Text.TruncateSeesOnlyPrefix | preprocess.py:16-18 | two texts are cut to the same string iff they agree on their first 5000 character positions (same characters there, and the same length when either is shorter) |
| Text.ReplaceFromLeftmost | preprocess.py:34 | from any scan position, `str.replace` finds the leftmost occurrence, emits what precedes it and the replacement, and resumes after the occurrence; with no further occurrence the rest is copied unchanged |
| Text.ReplaceAllLeftmost | preprocess.py:34 | on the whole string: the first occurrence splits the result, and a string without the pattern is returned unchanged |
| Text.ReplaceAllAbsent | preprocess.py:34 | a string without the pattern is returned unchanged |
| Extract.TopicTags | preprocess.py:86 | a tag is kept iff its lower-cased form is neither "english" nor "hinglish"; the kept tags form a subsequence of the input (original relative order) |
| Extract.TopicTagsCounts | preprocess.py:86 | every non-label tag keeps all of its occurrences; every language label loses all of them |
| Extract.TopicTagsIdempotent | preprocess.py:86 | filtering the filtered list gives the same list |
| Extract.AsStrings | preprocess.py:86 | `.lower()` succeeds on every element iff every element is a string, and AttributeError is raised otherwise |
| Extract.OneCharacterTagsKept | preprocess.py:86 | a list of one-character tags passes the filter unchanged, since no single character is a language label |
| Extract.FilterTagValue | preprocess.py:86 | the filtered tags contain no language label; on a list it succeeds iff every item is a string, gives exactly the list's strings with the labels removed, in order, and otherwise raises AttributeError (`.lower()`); a string gives each of its characters as a tag; an object is the unordered-keys case; null, booleans and numbers raise TypeError |
| Extract.ReplaceTags | preprocess.py:85-86 | on the parsed object, `tags` is replaced by the filtered list and every other field is kept; a non-object raises TypeError and a missing `tags` raises KeyError |
| Extract.ExtractMetadata | preprocess.py:68-90 | a failed model call propagates; a parse failure gives exactly `{line_count: 0, language: "Unknown", tags: []}`; any other parser exception propagates; a successful result always has a label-free list of string tags |
| Extract.ExtractSeesOnlyPrefix | preprocess.py:81 | two posts that agree on their first 5000 character positions get the same metadata, because only that prefix reaches the model |
| Extract.LanguageTagsRemoved | preprocess.py:86 | a reply whose tags are a list of strings keeps exactly the filtered list as its tags |
| Annotate.MergeIsOverlay | preprocess.py:50 | `post + metadata` has the keys of both maps, takes the metadata's value where the metadata has the key, and the post's value otherwise |
| Annotate.OverlayUnique | preprocess.py:50 | only one record is an overlay of a given post and metadata |
| Annotate.EnrichPost | preprocess.py:46-51 | the step succeeds iff the post is an object with a string `text` whose sanitised text yields metadata; the enriched record's keys are the union of both key sets, metadata values win, other fields are kept, and `text` becomes the sanitised text unless the metadata supplies one |
| Annotate.EnrichPostOverlay | preprocess.py:48-50 | an enriched post is the overlay of the metadata on the post whose text was replaced by its sanitised form |
| Annotate.ParseFailureKeepsPost | preprocess.py:46-51 | when the reply cannot be parsed, the post is still enriched, with the default metadata and language "Unknown" |
| Annotate.MissingTagsSkipsPost | preprocess.py:83-90 | a parsed reply without `tags` makes the step raise KeyError, so the post is skipped |
| Annotate.EnrichStep | preprocess.py:46-53 | the step keeps the enriched post exactly when `EnrichPost` succeeds; otherwise it logs the exception `EnrichPost` raises, with the post as the dict holds it then: text replaced by its sanitised form and every other field unchanged when the post is an object with a string `text`, the post as read otherwise |
| Annotate.LateFailureLogsSanitisedPost | preprocess.py:48-53 | when the metadata step raises, the logged post carries the sanitised text |
| Annotate.FailuresLogged | preprocess.py:45-53 | every logged failure is some input post, as the handler sees it, paired with the exception that post's step raised |
| Annotate.EnrichedHaveTopicTags | preprocess.py:45-53 | every enriched post has a `tags` list of strings, none of which is a language label |
| Batches.RunAll | preprocess.py:42-53 | each input item ends up either as a kept result or as a failure, so kept + failed = input length |
| Batches.RunLoop | preprocess.py:42-53 | the loop over the posts computes exactly the batch `RunAll` describes |
| Batches.KeptIndices | preprocess.py:45-53 | the indices of the items whose step did not raise: strictly increasing, every one a success, every success listed |
| Batches.KeptInOrder | preprocess.py:45-53 | the k-th kept result is the result of the k-th item that did not raise, so the output is the order-preserving subsequence of successes |
| Batches.FailuresRaised | preprocess.py:52-53 | every failure is exactly what the step of some input item raised |
| Batches.RunAllAppend | preprocess.py:45-53 | processing a concatenation is processing each part, so a failing post does not affect later posts |
| Batches.AllSucceed | preprocess.py:45-53 | when no step raises, every item's result is kept in place and nothing fails |
| Batches.ExactlyOneFailure | preprocess.py:45-53 | N items with exactly one failing step give N - 1 results (those before and after it) and that step's failure as the only one |
| Tags.Contribution | preprocess.py:30-31 | `set.update` adds exactly a list's strings (and raises TypeError when an item is not a string), a string's one-character strings, an object's keys; null, booleans and numbers are not iterable and raise TypeError |
| Tags.UnifiedTagSet | preprocess.py:28-31 | the union succeeds iff every post's `tags` can be added; a tag is in it iff some post has a `tags` field contributing it |
| Tags.UntaggedPostIgnored | preprocess.py:30 | a post without a `tags` key contributes nothing, wherever it stands |
| Tags.ListTags | preprocess.py:38 | the listed tags have no duplicates and are exactly the set's elements |
| Tags.TagsPath | preprocess.py:34 | the first occurrence of "processed_posts.json" in the path becomes "tags.json" and the rest is rewritten the same way; a path without the name is kept as it is |
| Tags.SiblingPath | preprocess.py:34 | `dir + "processed_posts.json"` maps to `dir + "tags.json"` when the directory part does not run into the file name |
| Tags.TagsPathWithoutName | preprocess.py:34 | a path that does not contain "processed_posts.json" is used unchanged, so the tag index would then overwrite the processed-posts file |
| Tags.DefaultTagsPath | preprocess.py:34 | the path the entry point passes, "data/processed_posts.json", gives "data/tags.json" |
| Tags.GetUnifiedTags | preprocess.py:26-38 | the returned tags are duplicate-free and exactly the union; one dump to the derived path unless the path is "None", and none otherwise |
| Pipeline.TopicTagsContribute | preprocess.py:30-31 | an enriched record can always be added to the union and contributes exactly the tags in its list |
| Pipeline.EnrichedTagUnion | preprocess.py:28-31 | tag unification over an enriched corpus never raises and yields exactly the tags the enriched posts carry |
| Pipeline.ProcessPosts | preprocess.py:41-61 | the enriched posts are the batch; the tags are duplicate-free and exactly those carried by enriched posts; nothing is written iff the path is "None"; otherwise the corpus goes to the path and the tag index to the derived path, in that order |

## Left out

- The prompt template and the model call (preprocess.py:69-81) are the `invoke` parameter. It is applied to the truncated text; the fixed template is folded into it.
- Extract.ExtractSeesOnlyPrefix: the model call is treated as a deterministic function of the prompt. A real model can answer the same prompt differently, so the lemma promises only that nothing past the first 5000 characters reaches the model.
- JSON parsing of the reply is the `parse` parameter. Its three outcomes are a value, a parse failure and any other exception.
- `sanitize_unicode` (preprocess.py:11-13) is the total function `sanitize`. Its UTF-16 codec behaviour is not modelled. Dafny strings cannot hold lone surrogates, so raw text containing them is not representable.
- Extract.IsLanguageLabel: Python's Unicode `.lower()` is approximated by ASCII lower-casing. No non-ASCII code point has a lowercase mapping made only of letters of "english" or "hinglish", so the filter's verdict is the same.
- Extract.FilterTagValue: a `tags` value that is a JSON object is iterated by Python over its keys in insertion order. A map keeps no order, so this case is the `UnorderedKeys` error instead of the key list.
- Tags.Contribution: non-string list items (numbers, booleans, null) are treated as raising TypeError. Python would hash them, with `1`, `1.0` and `True` collapsing, and raises only for nested lists and objects. An enriched corpus never holds such items (`Pipeline.TopicTagsContribute`).
- JSON numbers are integers and records are unordered maps. Number formatting and the key order of the written files are not modelled.
- The top-level value `json.load` returns is taken to be the array of posts. Iterating a top-level object or string, or failing on a number, is not modelled.
- File reading and writing, `logging`, and the final `print` loop (preprocess.py:43-44, 57-58, 35-36, 62-65) are left out. Writes are `Dump` values in the run's result, and logged failures are the batch's failure list. Pretty-printing and `ensure_ascii=False` are formatting and are not modelled. I/O errors are not modelled.
- A path argument that is Python `None` rather than the string `"None"` is not modelled, because paths are strings.
- Text.TruncateTo: only non-negative `max_length` is modelled. Python's negative slice bounds never arise, since the script uses the default 5000.
- `app.py` is Streamlit presentation. It calls `few_shot` and `post_generator`, which are not part of this model, so example selection and post generation are left out.
