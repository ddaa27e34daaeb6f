/** `get_unified_tags`: the set of all tags over a list of posts, written
    as a JSON list next to the processed-posts file. */
module Tags {
  import opened Json
  import opened Text

  /** The file-name part rewritten to derive the tag index path. */
  const ProcessedName: string := "processed_posts.json"
  const TagsName: string := "tags.json"

  /** The path argument that means "write nothing". */
  const NoPath: string := "None"

  /** `processed_file_path.replace("processed_posts.json", "tags.json")`:
      the first occurrence of the file name becomes `tags.json`, and the scan
      goes on after it; a path without the name is kept as it is. */
  function TagsPath(processedPath: string): (r: string)
    ensures Find(processedPath, ProcessedName) < 0 ==> r == processedPath
    ensures Find(processedPath, ProcessedName) >= 0 ==>
      r == processedPath[..Find(processedPath, ProcessedName)] + TagsName
        + ReplaceFrom(processedPath, ProcessedName, TagsName, Find(processedPath, ProcessedName) + |ProcessedName|)
  {
    ReplaceAllLeftmost(processedPath, ProcessedName, TagsName);
    ReplaceAll(processedPath, ProcessedName, TagsName)
  }

  /** A processed-posts file named `processed_posts.json` in a directory
      whose name does not run into that file name gets `tags.json` beside it. */
  lemma SiblingPath(dir: string)
    requires forall j: nat :: j < |dir| ==> !OccursAt(dir + ProcessedName, ProcessedName, j)
    ensures TagsPath(dir + ProcessedName) == dir + TagsName
  {
    var s := dir + ProcessedName;
    assert s[|dir|..|dir| + |ProcessedName|] == ProcessedName;
    assert OccursAt(s, ProcessedName, |dir|);
    assert Find(s, ProcessedName) == |dir|;
    ReplaceAllLeftmost(s, ProcessedName, TagsName);
    assert s[..|dir|] == dir;
    assert s[|dir| + |ProcessedName|..] == [];
    assert !OccursAt(s, ProcessedName, |s|);
    assert ReplaceFrom(s, ProcessedName, TagsName, |s|) == [];
  }

  /** A path that does not mention `processed_posts.json` is used unchanged,
      so the tag index then overwrites the processed-posts file. */
  lemma TagsPathWithoutName(path: string)
    requires forall j: nat :: !OccursAt(path, ProcessedName, j)
    ensures TagsPath(path) == path
  {
    ReplaceAllAbsent(path, ProcessedName, TagsName);
  }

  /** The path the script's entry point passes. */
  lemma DefaultTagsPath()
    ensures TagsPath("data/processed_posts.json") == "data/tags.json"
  {
    var s := "data/processed_posts.json";
    forall j: nat | j < 5
      ensures !OccursAt(s, ProcessedName, j)
    {
      NotAtIfFirstDiffers(s, ProcessedName, j);
    }
    assert s[5..25] == ProcessedName;
    assert Find(s, ProcessedName) == 5;
    assert !OccursAt(s, ProcessedName, 25);
    assert ReplaceFrom(s, ProcessedName, TagsName, 25) == [];
    assert s[..5] == "data/";
  }

  /** A pattern cannot occur where its first character does not. */
  lemma NotAtIfFirstDiffers(s: string, pat: string, j: nat)
    requires j < |s| && pat != [] && s[j] != pat[0]
    ensures !OccursAt(s, pat, j)
  {
  }

  /** What `set.update(post["tags"])` adds: the strings of a list, the
      one-character strings of a string, the keys of an object. Anything else
      is not iterable and raises TypeError. */
  function Contribution(tags: Value): (r: Result<set<string>>)
    ensures tags.JArr? ==>
      (r.Ok? <==> forall i :: 0 <= i < |tags.items| ==> tags.items[i].JStr?)
    ensures tags.JArr? && r.Ok? ==>
      forall t :: t in r.value <==> JStr(t) in tags.items
    ensures tags.JObj? ==> r == Ok(tags.fields.Keys)
    ensures tags.JStr? ==> r.Ok? && forall c :: [c] in r.value <==> c in tags.s
    ensures tags.JStr? ==> forall t :: t in r.value ==> |t| == 1
    ensures tags.JArr? && r.Err? ==> r.error == TypeError
    ensures tags.JNull? || tags.JBool? || tags.JNum? ==> r == Err(TypeError)
  {
    match tags
    case JArr(items) =>
      if forall i :: 0 <= i < |items| ==> items[i].JStr? then
        Ok(set i | 0 <= i < |items| :: items[i].s)
      else Err(TypeError)
    case JStr(s) => Ok(set c | c in s :: [c])
    case JObj(fields) => Ok(fields.Keys)
    case _ => Err(TypeError)
  }

  /** `t` is one of the tags that `post` adds to the union. */
  predicate Contributes(post: Record, t: string)
  {
    "tags" in post && Contribution(post["tags"]).Ok? && t in Contribution(post["tags"]).value
  }

  /** A post without a `tags` field adds nothing; one whose `tags` cannot be added raises. */
  predicate CanContribute(post: Record)
  {
    "tags" in post ==> Contribution(post["tags"]).Ok?
  }

  /** The loop of `get_unified_tags`: the union of the tags of every post that has any. */
  function UnifiedTagSet(posts: seq<Record>): (r: Result<set<string>>)
    ensures r.Ok? <==> forall i :: 0 <= i < |posts| ==> CanContribute(posts[i])
    ensures r.Ok? ==> forall t :: t in r.value <==> exists i :: 0 <= i < |posts| && Contributes(posts[i], t)
    ensures r.Err? ==> r.error == TypeError
    decreases |posts|
  {
    if posts == [] then Ok({})
    else
      var first := if "tags" in posts[0] then Contribution(posts[0]["tags"]) else Ok({});
      if first.Err? then Err(first.error)
      else
        var rest := UnifiedTagSet(posts[1..]);
        assert forall i :: 1 <= i < |posts| ==> posts[1..][i - 1] == posts[i];
        if rest.Err? then rest
        else Ok(first.value + rest.value)
  }

  /** Posts without a `tags` field contribute nothing, wherever they stand. */
  lemma {:induction false} UntaggedPostIgnored(before: seq<Record>, post: Record, after: seq<Record>)
    requires "tags" !in post
    ensures UnifiedTagSet(before + [post] + after) == UnifiedTagSet(before + after)
    decreases |before|
  {
    if before == [] {
      assert before + [post] + after == [post] + after;
      assert ([post] + after)[1..] == after;
      assert before + after == after;
      var rest := UnifiedTagSet(after);
      if rest.Ok? {
        assert {} + rest.value == rest.value;
      }
    } else {
      assert (before + [post] + after)[1..] == before[1..] + [post] + after;
      assert (before + after)[1..] == before[1..] + after;
      assert (before + [post] + after)[0] == before[0] == (before + after)[0];
      UntaggedPostIgnored(before[1..], post, after);
    }
  }

  /** No element occurs twice. */
  predicate NoDuplicates(s: seq<string>)
  {
    forall i, j :: 0 <= i < j < |s| ==> s[i] != s[j]
  }

  /** `list(unified_tags)`: the elements of the set, each once, in an order
      the set's iteration chooses. */
  method ListTags(tags: set<string>) returns (r: seq<string>)
    ensures NoDuplicates(r)
    ensures forall t :: t in r <==> t in tags
    ensures |r| == |tags|
  {
    r := [];
    var rest := tags;
    while rest != {}
      invariant rest <= tags
      invariant forall t :: t in r <==> t in tags && t !in rest
      invariant NoDuplicates(r)
      invariant |r| + |rest| == |tags|
      decreases rest
    {
      var t :| t in rest;
      r := r + [t];
      rest := rest - {t};
    }
  }

  /** The tags `get_unified_tags` returns and the files it writes. */
  datatype TagIndex = TagIndex(tags: seq<string>, dumps: seq<Dump>)

  /** `get_unified_tags(posts, processed_file_path)`. */
  method GetUnifiedTags(posts: seq<Record>, processedPath: string) returns (r: Result<TagIndex>)
    ensures r.Ok? <==> forall i :: 0 <= i < |posts| ==> CanContribute(posts[i])
    ensures r.Err? ==> r.error == TypeError
    ensures r.Ok? ==> NoDuplicates(r.value.tags)
    ensures r.Ok? ==>
      forall t :: t in r.value.tags <==> exists i :: 0 <= i < |posts| && Contributes(posts[i], t)
    ensures r.Ok? && processedPath == NoPath ==> r.value.dumps == []
    ensures r.Ok? && processedPath != NoPath ==>
      r.value.dumps == [Dump(TagsPath(processedPath), StringArray(r.value.tags))]
  {
    var unified := UnifiedTagSet(posts);
    if unified.Err? {
      return Err(unified.error);
    }
    var tags := ListTags(unified.value);
    var dumps := if processedPath != NoPath then [Dump(TagsPath(processedPath), StringArray(tags))] else [];
    r := Ok(TagIndex(tags, dumps));
  }
}
