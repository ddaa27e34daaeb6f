/** `process_posts`: enrich every post of the raw corpus, skipping the ones
    that raise, then write the enriched corpus and its tag index unless the
    output path is the string "None". */
module Pipeline {
  import opened Json
  import opened Extract
  import opened Batches
  import opened Annotate
  import opened Tags

  /** A record whose tags are topic tags always adds them to the union: exactly its tags. */
  lemma TopicTagsContribute(rec: Record)
    requires HasTopicTags(rec)
    ensures CanContribute(rec)
    ensures forall t :: Contributes(rec, t) <==> CarriesTag(rec, t)
  {
  }

  /** Tag unification over an enriched corpus never raises, and yields
      exactly the tags the enriched posts carry. */
  lemma EnrichedTagUnion(posts: seq<Value>, env: Services)
    ensures UnifiedTagSet(EnrichAll(posts, env).kept).Ok?
    ensures forall t :: t in UnifiedTagSet(EnrichAll(posts, env).kept).value <==>
      exists k :: 0 <= k < |EnrichAll(posts, env).kept|
        && CarriesTag(EnrichAll(posts, env).kept[k], t)
  {
    var kept := EnrichAll(posts, env).kept;
    EnrichedHaveTopicTags(posts, env);
    forall k | 0 <= k < |kept|
      ensures CanContribute(kept[k])
      ensures forall t :: Contributes(kept[k], t) <==> CarriesTag(kept[k], t)
    {
      TopicTagsContribute(kept[k]);
    }
  }

  /** Everything one run of `process_posts` produces. */
  datatype Run = Run(batch: Batch<Value, Record>, tags: seq<string>, dumps: seq<Dump>)

  /** `process_posts` on the decoded raw corpus `posts`. */
  method ProcessPosts(posts: seq<Value>, processedPath: string, env: Services) returns (run: Run)
    ensures run.batch == EnrichAll(posts, env)
    ensures |run.batch.kept| <= |posts|
    ensures forall k :: 0 <= k < |run.batch.kept| ==> HasTopicTags(run.batch.kept[k])
    ensures NoDuplicates(run.tags)
    ensures forall t :: t in run.tags <==>
      exists k :: 0 <= k < |run.batch.kept| && CarriesTag(run.batch.kept[k], t)
    ensures processedPath == NoPath <==> run.dumps == []
    ensures processedPath != NoPath ==> run.dumps == [
      Dump(processedPath, RecordArray(run.batch.kept)),
      Dump(TagsPath(processedPath), StringArray(run.tags))]
  {
    var batch := RunLoop(Enricher(env), posts);

    var dumps: seq<Dump> := [];
    if processedPath != NoPath {
      dumps := [Dump(processedPath, RecordArray(batch.kept))];
    }

    EnrichedTagUnion(posts, env);
    EnrichedHaveTopicTags(posts, env);
    var index := GetUnifiedTags(batch.kept, processedPath);
    run := Run(batch, index.value.tags, dumps + index.value.dumps);
  }
}
