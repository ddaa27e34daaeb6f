/** The string operations the batch script applies: lower-casing for the tag
    test, the prefix cut before the model call, and `str.find` /
    `str.replace` for the tag-index file name. */
module Text {

  /** Default `max_length` of `truncate_text`. */
  const MaxLength: nat := 5000

  /** Lower-case form of one character, ASCII letters only. */
  function LowerChar(c: char): char
  {
    if 'A' <= c <= 'Z' then (c as int + 32) as char else c
  }

  /** `s.lower()`, with the ASCII letters lower-cased and every other
      character left as it is. */
  function Lower(s: string): (r: string)
    ensures |r| == |s|
  {
    seq(|s|, i requires 0 <= i < |s| => LowerChar(s[i]))
  }

  /** `text[:maxLength]`: a silent prefix cut. */
  function TruncateTo(text: string, maxLength: nat): (r: string)
    ensures r <= text
    ensures |r| == if |text| <= maxLength then |text| else maxLength
  {
    if |text| <= maxLength then text else text[..maxLength]
  }

  /** `truncate_text(text)`: the prefix of at most 5000 characters sent to the model. */
  function Truncate(text: string): (r: string)
    ensures r <= text
    ensures |r| <= MaxLength
    ensures |text| <= MaxLength ==> r == text
    ensures |text| > MaxLength ==> |r| == MaxLength
  {
    TruncateTo(text, MaxLength)
  }

  /** Cutting again changes nothing. */
  lemma TruncateIdempotent(text: string)
    ensures Truncate(Truncate(text)) == Truncate(text)
  {
  }

  /** `a` and `b` agree on their first `n` character positions: a text that
      ends before position `n` has the other's length, and below `n` the
      characters they both have are the same. */
  predicate AgreeUpTo(a: string, b: string, n: nat)
  {
    && (|a| < n || |b| < n ==> |a| == |b|)
    && forall i :: 0 <= i < n && i < |a| && i < |b| ==> a[i] == b[i]
  }

  /** The cut depends on the first 5000 characters and on nothing else: two
      texts are cut to the same string iff they agree on those positions. */
  lemma TruncateSeesOnlyPrefix(a: string, b: string)
    ensures Truncate(a) == Truncate(b) <==> AgreeUpTo(a, b, MaxLength)
  {
    var ta, tb := Truncate(a), Truncate(b);
    if ta == tb && (|a| < MaxLength || |b| < MaxLength) {
      assert |a| == |ta| || |b| == |tb|;
    }
    if AgreeUpTo(a, b, MaxLength) {
      assert |ta| == |tb|;
      assert forall i :: 0 <= i < |ta| ==> ta[i] == tb[i];
    }
  }

  /** `pat` occurs in `s` starting at index `i`. */
  predicate OccursAt(s: string, pat: string, i: nat)
  {
    i + |pat| <= |s| && s[i..i + |pat|] == pat
  }

  /** `s.find(pat, from)`: the leftmost occurrence at or after `from`. */
  function FindFrom(s: string, pat: string, from: nat): (r: int)
    requires from <= |s|
    ensures r == -1 || from <= r <= |s|
    ensures r >= 0 ==> OccursAt(s, pat, r)
    ensures forall j :: from <= j && (r < 0 || j < r) ==> !OccursAt(s, pat, j)
    decreases |s| - from
  {
    if OccursAt(s, pat, from) then from
    else if from == |s| then -1
    else FindFrom(s, pat, from + 1)
  }

  /** `s.find(pat)`: index of the leftmost occurrence, or -1 when there is none. */
  function Find(s: string, pat: string): (r: int)
    ensures r == -1 || 0 <= r <= |s|
    ensures r >= 0 ==> OccursAt(s, pat, r)
    ensures r >= 0 ==> forall j: nat :: j < r ==> !OccursAt(s, pat, j)
    ensures r < 0 ==> forall j: nat :: !OccursAt(s, pat, j)
  {
    FindFrom(s, pat, 0)
  }

  /** The scan behind `s.replace(pat, rep)`, from index `i`: each occurrence
      of `pat` found left to right is replaced by `rep` and the scan resumes
      after it. With an empty `pat`, Python inserts `rep` before every
      character and at the end. */
  function ReplaceFrom(s: string, pat: string, rep: string, i: nat): string
    requires i <= |s|
    decreases |s| - i
  {
    if pat == [] then
      (if i == |s| then rep else rep + [s[i]] + ReplaceFrom(s, pat, rep, i + 1))
    else if OccursAt(s, pat, i) then rep + ReplaceFrom(s, pat, rep, i + |pat|)
    else if i == |s| then []
    else [s[i]] + ReplaceFrom(s, pat, rep, i + 1)
  }

  /** `s.replace(pat, rep)`. */
  function ReplaceAll(s: string, pat: string, rep: string): string
  {
    ReplaceFrom(s, pat, rep, 0)
  }

  /** `str.replace` as CPython states it: find the leftmost occurrence at or
      after the scan position, emit what precedes it and the replacement, and
      resume after the occurrence; with no occurrence the rest is copied unchanged. */
  lemma {:induction false} ReplaceFromLeftmost(s: string, pat: string, rep: string, i: nat)
    requires pat != [] && i <= |s|
    ensures FindFrom(s, pat, i) < 0 ==> ReplaceFrom(s, pat, rep, i) == s[i..]
    ensures FindFrom(s, pat, i) >= 0 ==>
      ReplaceFrom(s, pat, rep, i)
      == s[i..FindFrom(s, pat, i)] + rep + ReplaceFrom(s, pat, rep, FindFrom(s, pat, i) + |pat|)
    decreases |s| - i, 1
  {
    if OccursAt(s, pat, i) {
      assert s[i..i] == [];
    } else if i < |s| {
      LeftmostLater(s, pat, rep, i);
    }
  }

  /** The case of `ReplaceFromLeftmost` where `pat` does not start at `i`. */
  lemma {:induction false} LeftmostLater(s: string, pat: string, rep: string, i: nat)
    requires pat != [] && i < |s| && !OccursAt(s, pat, i)
    ensures FindFrom(s, pat, i) < 0 ==> ReplaceFrom(s, pat, rep, i) == s[i..]
    ensures FindFrom(s, pat, i) >= 0 ==>
      ReplaceFrom(s, pat, rep, i)
      == s[i..FindFrom(s, pat, i)] + rep + ReplaceFrom(s, pat, rep, FindFrom(s, pat, i) + |pat|)
    decreases |s| - i, 0
  {
    ReplaceFromLeftmost(s, pat, rep, i + 1);
    CopyOne(s, pat, rep, i);
    var k := FindFrom(s, pat, i);
    if k >= 0 {
      PrependSplit(s, i, k, rep, ReplaceFrom(s, pat, rep, i), ReplaceFrom(s, pat, rep, i + 1),
        ReplaceFrom(s, pat, rep, k + |pat|));
    } else {
      assert s[i..] == [s[i]] + s[i + 1..];
    }
  }

  /** Without a match at `i`, the scan copies `s[i]` and moves on, and the next match is the same. */
  lemma CopyOne(s: string, pat: string, rep: string, i: nat)
    requires pat != [] && i < |s| && !OccursAt(s, pat, i)
    ensures ReplaceFrom(s, pat, rep, i) == [s[i]] + ReplaceFrom(s, pat, rep, i + 1)
    ensures FindFrom(s, pat, i) == FindFrom(s, pat, i + 1)
  {
  }

  /** Putting the copied character back in front of the split of the rest. */
  lemma PrependSplit(s: string, i: nat, k: nat, rep: string, whole: string, rest: string, after: string)
    requires i < k <= |s|
    requires whole == [s[i]] + rest
    requires rest == s[i + 1..k] + rep + after
    ensures whole == s[i..k] + rep + after
  {
    assert s[i..k] == [s[i]] + s[i + 1..k];
  }

  /** The whole-string form: the first occurrence splits the result, or the
      string is returned unchanged when `pat` does not occur. */
  lemma ReplaceAllLeftmost(s: string, pat: string, rep: string)
    requires pat != []
    ensures Find(s, pat) < 0 ==> ReplaceAll(s, pat, rep) == s
    ensures Find(s, pat) >= 0 ==>
      ReplaceAll(s, pat, rep)
      == s[..Find(s, pat)] + rep + ReplaceFrom(s, pat, rep, Find(s, pat) + |pat|)
  {
    ReplaceFromLeftmost(s, pat, rep, 0);
    assert s[0..] == s;
  }

  /** Without an occurrence of `pat`, `replace` returns the string unchanged. */
  lemma ReplaceAllAbsent(s: string, pat: string, rep: string)
    requires pat != []
    requires forall j: nat :: !OccursAt(s, pat, j)
    ensures ReplaceAll(s, pat, rep) == s
  {
    ReplaceAllLeftmost(s, pat, rep);
  }
}
