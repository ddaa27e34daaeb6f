/** `extract_metadata`: the language-model call on the truncated post, the
    parse of its reply, the language-label tag filter and the default record
    used when the reply cannot be parsed. The model call and the JSON output
    parser are supplied by the caller as functions. */
module Extract {
  import opened Json
  import opened Text
  import Seqs

  /** What one call of the prompt-plus-model chain produces. */
  datatype Reply = Reply(content: string) | CallFailed

  /** What the JSON output parser makes of a reply: a value, a parse failure
      (`OutputParserException`), or some other exception. */
  datatype ParseOutcome = Parsed(value: Value) | Malformed | ParserCrashed

  /** `tag.lower()` is one of the two language labels the model is told to use. */
  predicate IsLanguageLabel(tag: string)
  {
    Lower(tag) == "english" || Lower(tag) == "hinglish"
  }

  predicate IsTopicTag(tag: string)
  {
    !IsLanguageLabel(tag)
  }

  /** The tag list comprehension: the tags that are not language labels, in order. */
  function TopicTags(tags: seq<string>): (r: seq<string>)
    ensures forall t :: t in r <==> t in tags && !IsLanguageLabel(t)
    ensures Seqs.IsSubsequence(r, tags)
  {
    Seqs.FilterIsSubsequence(IsTopicTag, tags);
    Seqs.Filter(IsTopicTag, tags)
  }

  /** The filter drops exactly the language labels: every other tag keeps all of its occurrences. */
  lemma TopicTagsCounts(tags: seq<string>)
    ensures forall t ::
      multiset(TopicTags(tags))[t] == (if IsLanguageLabel(t) then 0 else multiset(tags)[t])
  {
    Seqs.FilterCounts(IsTopicTag, tags);
  }

  /** Filtering an already filtered list changes nothing. */
  lemma TopicTagsIdempotent(tags: seq<string>)
    ensures TopicTags(TopicTags(tags)) == TopicTags(tags)
  {
    Seqs.FilterIdempotent(IsTopicTag, tags);
  }

  /** The values a Python `for` visits when it iterates a decoded JSON value:
      the items of a list, the one-character strings of a string. Iterating an
      object visits its keys in insertion order, which a map does not keep. */
  function Elements(v: Value): Result<seq<Value>>
  {
    match v
    case JArr(items) => Ok(items)
    case JStr(s) => Ok(seq(|s|, i requires 0 <= i < |s| => JStr([s[i]])))
    case JObj(_) => Err(UnorderedKeys)
    case _ => Err(TypeError)
  }

  /** A one-character tag is never a language label, so the filter keeps every one. */
  lemma OneCharacterTagsKept(strs: seq<string>)
    requires forall i :: 0 <= i < |strs| ==> |strs[i]| == 1
    ensures TopicTags(strs) == strs
  {
    Seqs.FilterKeepsAll(IsTopicTag, strs);
  }

  /** The strings held by `items`; `.lower()` on any other value raises AttributeError. */
  function AsStrings(items: seq<Value>): (r: Result<seq<string>>)
    ensures r.Ok? <==> forall i :: 0 <= i < |items| ==> items[i].JStr?
    ensures r.Ok? ==>
      && |r.value| == |items|
      && forall i :: 0 <= i < |items| ==> items[i] == JStr(r.value[i])
    ensures r.Err? ==> r.error == AttributeError
    decreases |items|
  {
    if items == [] then Ok([])
    else if !items[0].JStr? then Err(AttributeError)
    else
      match AsStrings(items[1..])
      case Ok(rest) => Ok([items[0].s] + rest)
      case Err(e) => Err(e)
  }

  /** `[tag for tag in tags if tag.lower() not in ["english", "hinglish"]]` on a decoded value. */
  function FilterTagValue(tags: Value): (r: Result<seq<string>>)
    ensures r.Ok? ==> forall t :: t in r.value ==> !IsLanguageLabel(t)
    ensures tags.JArr? ==> (r.Ok? <==> forall i :: 0 <= i < |tags.items| ==> tags.items[i].JStr?)
    ensures tags.JArr? && r.Ok? ==>
      r.value == TopicTags(seq(|tags.items|, i requires 0 <= i < |tags.items| && tags.items[i].JStr? => tags.items[i].s))
    ensures tags.JArr? && r.Err? ==> r.error == AttributeError
    ensures tags.JStr? ==> r == Ok(seq(|tags.s|, i requires 0 <= i < |tags.s| => [tags.s[i]]))
    ensures tags.JObj? ==> r == Err(UnorderedKeys)
    ensures tags.JNull? || tags.JBool? || tags.JNum? ==> r == Err(TypeError)
  {
    match Elements(tags)
    case Err(e) => Err(e)
    case Ok(items) =>
      match AsStrings(items)
      case Err(e) => Err(e)
      case Ok(strs) =>
        assert forall i :: 0 <= i < |items| ==> items[i].s == strs[i];
        if tags.JStr? then
          assert forall i :: 0 <= i < |strs| ==> strs[i] == [tags.s[i]];
          assert strs == seq(|tags.s|, i requires 0 <= i < |tags.s| => [tags.s[i]]);
          OneCharacterTagsKept(strs);
          Ok(TopicTags(strs))
        else
          assert tags.JArr?;
          assert strs == seq(|tags.items|, i requires 0 <= i < |tags.items| && tags.items[i].JStr? => tags.items[i].s);
          Ok(TopicTags(strs))
  }

  /** A record whose `tags` field is a list of strings none of which is a language label. */
  predicate HasTopicTags(rec: Record)
  {
    && "tags" in rec
    && rec["tags"].JArr?
    && forall i :: 0 <= i < |rec["tags"].items| ==>
         rec["tags"].items[i].JStr? && !IsLanguageLabel(rec["tags"].items[i].s)
  }

  /** `t` is one of the tags in the list held by `rec`'s `tags` field. */
  predicate CarriesTag(rec: Record, t: string)
  {
    "tags" in rec && rec["tags"].JArr? && JStr(t) in rec["tags"].items
  }

  /** The record returned when the reply cannot be parsed. */
  const DefaultMetadata: Record :=
    map["line_count" := JNum(0), "language" := JStr("Unknown"), "tags" := JArr([])]

  /** `res["tags"] = [...]` on the parsed value: the filtered tags replace the
      returned ones and every other returned field is kept. Indexing a value
      that is not an object raises TypeError; a missing `tags` raises KeyError. */
  function ReplaceTags(parsed: Value): (r: Result<Record>)
    ensures !parsed.JObj? ==> r == Err(TypeError)
    ensures parsed.JObj? && "tags" !in parsed.fields ==> r == Err(KeyError("tags"))
    ensures r.Ok? <==>
      parsed.JObj? && "tags" in parsed.fields && FilterTagValue(parsed.fields["tags"]).Ok?
    ensures r.Ok? ==> HasTopicTags(r.value)
    ensures r.Ok? ==>
      && r.value.Keys == parsed.fields.Keys
      && r.value["tags"] == StringArray(FilterTagValue(parsed.fields["tags"]).value)
      && forall k :: k in r.value && k != "tags" ==> r.value[k] == parsed.fields[k]
  {
    match parsed
    case JObj(res) =>
      if "tags" !in res then Err(KeyError("tags"))
      else
        (match FilterTagValue(res["tags"])
         case Err(e) => Err(e)
         case Ok(kept) => Ok(res["tags" := StringArray(kept)]))
    case _ => Err(TypeError)
  }

  /** `extract_metadata(text)`: ask the model about the first 5000 characters,
      parse its reply, and clean the tags. A parse failure yields the default
      record; every other exception reaches the caller. */
  function ExtractMetadata(text: string, invoke: string -> Reply, parse: string -> ParseOutcome)
    : (r: Result<Record>)
    ensures r.Ok? ==> HasTopicTags(r.value)
    ensures invoke(Truncate(text)).CallFailed? ==> r == Err(ModelCallError)
    ensures invoke(Truncate(text)).Reply? ==>
      var outcome := parse(invoke(Truncate(text)).content);
      && (outcome.Malformed? ==> r == Ok(DefaultMetadata))
      && (outcome.ParserCrashed? ==> r == Err(ParserError))
      && (outcome.Parsed? ==> r == ReplaceTags(outcome.value))
  {
    match invoke(Truncate(text))
    case CallFailed => Err(ModelCallError)
    case Reply(content) =>
      match parse(content)
      case Malformed => Ok(DefaultMetadata)
      case ParserCrashed => Err(ParserError)
      case Parsed(v) => ReplaceTags(v)
  }

  /** Only the first 5000 characters of a post reach the model, so two posts
      that agree on them get the same metadata. */
  lemma ExtractSeesOnlyPrefix(a: string, b: string, invoke: string -> Reply, parse: string -> ParseOutcome)
    requires AgreeUpTo(a, b, MaxLength)
    ensures ExtractMetadata(a, invoke, parse) == ExtractMetadata(b, invoke, parse)
  {
    TruncateSeesOnlyPrefix(a, b);
  }

  /** A reply the model echoes with a language label as a tag comes back without it. */
  lemma LanguageTagsRemoved(res: map<string, Value>, tags: seq<string>)
    requires "tags" in res && res["tags"] == StringArray(tags)
    ensures ReplaceTags(JObj(res)).Ok?
    ensures ReplaceTags(JObj(res)).value["tags"] == StringArray(TopicTags(tags))
  {
    var items := res["tags"].items;
    assert forall i :: 0 <= i < |items| ==> items[i] == JStr(tags[i]);
    assert AsStrings(items).value == tags;
  }
}
