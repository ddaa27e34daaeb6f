/** The per-post step of `process_posts` (sanitise the text, extract
    metadata, overlay it on the post) and the failure-isolating batch over a
    whole corpus. */
module Annotate {
  import opened Json
  import opened Extract
  import opened Batches
  import Text

  /** The capabilities the batch depends on but does not define:
      `sanitize_unicode`, the prompt-plus-model chain, and the JSON output parser. */
  datatype Services = Services(
    sanitize: string -> string,
    invoke: string -> Reply,
    parse: string -> ParseOutcome)

  /** `base | top`: every key of either map, the value from `top` where it has one. */
  predicate IsOverlay(r: Record, base: Record, top: Record)
  {
    && r.Keys == base.Keys + top.Keys
    && (forall k :: k in top ==> r[k] == top[k])
    && (forall k :: k in base && k !in top ==> r[k] == base[k])
  }

  /** Dafny's right-biased map union is Python's dict `|`. */
  lemma MergeIsOverlay(base: Record, top: Record)
    ensures IsOverlay(base + top, base, top)
  {
  }

  /** The overlay of two records is unique. */
  lemma OverlayUnique(r: Record, r': Record, base: Record, top: Record)
    requires IsOverlay(r, base, top) && IsOverlay(r', base, top)
    ensures r == r'
  {
  }

  /** The metadata for the post's text once it has been sanitised. */
  function MetadataFor(raw: string, env: Services): Result<Record>
  {
    ExtractMetadata(env.sanitize(raw), env.invoke, env.parse)
  }

  /** One iteration of the `try` block: `post['text'] = sanitize_unicode(post['text'])`,
      `extract_metadata(post['text'])`, `post | metadata`. */
  function EnrichPost(post: Value, env: Services): (r: Result<Record>)
    ensures r.Ok? <==>
      && post.JObj? && "text" in post.fields && post.fields["text"].JStr?
      && MetadataFor(post.fields["text"].s, env).Ok?
    ensures post.JObj? && "text" !in post.fields ==> r == Err(KeyError("text"))
    ensures r.Ok? ==>
      var fields := post.fields;
      var meta := MetadataFor(fields["text"].s, env).value;
      && r.value.Keys == fields.Keys + meta.Keys
      && (forall k :: k in meta ==> r.value[k] == meta[k])
      && (forall k :: k in fields && k !in meta && k != "text" ==> r.value[k] == fields[k])
      && ("text" !in meta ==> r.value["text"] == JStr(env.sanitize(fields["text"].s)))
    ensures r.Ok? ==> HasTopicTags(r.value)
  {
    match post
    case JObj(fields) =>
      if "text" !in fields then Err(KeyError("text"))
      else if !fields["text"].JStr? then Err(AttributeError)
      else
        var text := env.sanitize(fields["text"].s);
        (match ExtractMetadata(text, env.invoke, env.parse)
         case Ok(meta) => Ok(fields["text" := JStr(text)] + meta)
         case Err(e) => Err(e))
    case _ => Err(TypeError)
  }

  /** An enriched post is the sanitised post overlaid with its metadata. */
  lemma EnrichPostOverlay(post: Value, env: Services)
    requires EnrichPost(post, env).Ok?
    ensures IsOverlay(
      EnrichPost(post, env).value,
      post.fields["text" := JStr(env.sanitize(post.fields["text"].s))],
      MetadataFor(post.fields["text"].s, env).value)
  {
  }

  /** A reply the parser rejects still enriches the post, with the default metadata. */
  lemma ParseFailureKeepsPost(fields: Record, raw: string, env: Services)
    requires "text" in fields && fields["text"] == JStr(raw)
    requires env.invoke(Text.Truncate(env.sanitize(raw))).Reply?
    requires env.parse(env.invoke(Text.Truncate(env.sanitize(raw))).content).Malformed?
    ensures EnrichPost(JObj(fields), env)
      == Ok(fields["text" := JStr(env.sanitize(raw))] + DefaultMetadata)
    ensures EnrichPost(JObj(fields), env).value["language"] == JStr("Unknown")
  {
  }

  /** A parsed reply without a `tags` key is not a parse failure: the KeyError
      escapes `extract_metadata` and the post is skipped. */
  lemma MissingTagsSkipsPost(fields: Record, raw: string, reply: map<string, Value>, env: Services)
    requires "text" in fields && fields["text"] == JStr(raw)
    requires env.invoke(Text.Truncate(env.sanitize(raw))).Reply?
    requires env.parse(env.invoke(Text.Truncate(env.sanitize(raw))).content) == Parsed(JObj(reply))
    requires "tags" !in reply
    ensures EnrichPost(JObj(fields), env) == Err(KeyError("tags"))
  {
  }

  /** The post `log_error` receives when the step raises. Once the post is an
      object with a string `text`, `post['text'] = sanitize_unicode(...)` has
      updated the dict in place before anything else can raise. */
  function Logged(post: Value, env: Services): Value
  {
    if post.JObj? && "text" in post.fields && post.fields["text"].JStr?
    then JObj(post.fields["text" := JStr(env.sanitize(post.fields["text"].s))])
    else post
  }

  /** One pass of the `try`/`except` body: the enriched post, or the logged
      post with the exception. */
  function EnrichStep(post: Value, env: Services): (a: Attempt<Value, Record>)
    ensures a.Done? <==> EnrichPost(post, env).Ok?
    ensures a.Done? ==> a.value == EnrichPost(post, env).value
    ensures a.Raised? ==> a.failure.error == EnrichPost(post, env).error
    ensures a.Raised? && post.JObj? && "text" in post.fields && post.fields["text"].JStr? ==>
      && a.failure.item.JObj?
      && a.failure.item.fields.Keys == post.fields.Keys
      && a.failure.item.fields["text"] == JStr(env.sanitize(post.fields["text"].s))
      && forall k :: k in post.fields && k != "text" ==> a.failure.item.fields[k] == post.fields[k]
    ensures a.Raised? && !(post.JObj? && "text" in post.fields && post.fields["text"].JStr?) ==>
      a.failure.item == post
  {
    match EnrichPost(post, env)
    case Ok(r) => Done(r)
    case Err(e) => Raised(Failure(Logged(post, env), e))
  }

  /** A failure of the model call, of the parser or of the tag handling logs
      the post with its text already sanitised. */
  lemma LateFailureLogsSanitisedPost(fields: Record, raw: string, env: Services)
    requires "text" in fields && fields["text"] == JStr(raw)
    requires MetadataFor(raw, env).Err?
    ensures EnrichStep(JObj(fields), env)
      == Raised(Failure(JObj(fields["text" := JStr(env.sanitize(raw))]), MetadataFor(raw, env).error))
  {
  }

  /** The per-post step as a function value. */
  function Enricher(env: Services): Value -> Attempt<Value, Record>
  {
    post => EnrichStep(post, env)
  }

  /** `enriched_posts` after the loop of `process_posts`, with the logged failures. */
  function EnrichAll(posts: seq<Value>, env: Services): Batch<Value, Record>
  {
    RunAll(Enricher(env), posts)
  }

  /** Every logged failure is an input post, as the handler saw it, whose step raised that exception. */
  lemma FailuresLogged(posts: seq<Value>, env: Services)
    ensures forall f :: f in EnrichAll(posts, env).failures ==>
      exists i ::
        0 <= i < |posts| && Logged(posts[i], env) == f.item && EnrichPost(posts[i], env) == Err(f.error)
  {
    FailuresRaised(Enricher(env), posts);
    forall f | f in EnrichAll(posts, env).failures
      ensures exists i ::
        0 <= i < |posts| && Logged(posts[i], env) == f.item && EnrichPost(posts[i], env) == Err(f.error)
    {
      var i :| 0 <= i < |posts| && Enricher(env)(posts[i]) == Raised(f);
      assert EnrichStep(posts[i], env) == Raised(f);
    }
  }

  /** Every enriched post carries a list of topic tags without language labels. */
  lemma EnrichedHaveTopicTags(posts: seq<Value>, env: Services)
    ensures forall k :: 0 <= k < |EnrichAll(posts, env).kept| ==>
      HasTopicTags(EnrichAll(posts, env).kept[k])
  {
    KeptInOrder(Enricher(env), posts);
  }
}
