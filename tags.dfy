/** The values behind the ingredient tag input: how typed text becomes a tag,
    what a well-formed tag list is, and the lists that the component's spread
    (`[...ingredients, tag]`) and `filter` build. */
module Tags {
  import opened Text

  /** `ingredient.trim().toLowerCase()`: the tag that typed text stands for,
      empty exactly when the text is blank. */
  function Normalize(x: String): (t: String)
    ensures IsTrimmed(t) && IsLower(t)
    ensures t == [] <==> AllWhitespace(x)
  {
    var m := Trim(x);
    ToLowerKeepsWhitespace(m);
    ToLowerIsLower(m);
    TrimEmptyIffBlank(x);
    ToLower(m)
  }

  /** A tag as the list stores it: non-empty, trimmed and lower-case. */
  predicate IsTag(t: String) {
    t != [] && IsTrimmed(t) && IsLower(t)
  }

  predicate Distinct(tags: seq<String>) {
    forall i, j :: 0 <= i < j < |tags| ==> tags[i] != tags[j]
  }

  /** The invariant of the tag list: every entry is a tag and no tag occurs
      twice (the rendered badges are keyed by the tag itself). */
  predicate ValidTags(tags: seq<String>) {
    (forall i :: 0 <= i < |tags| ==> IsTag(tags[i])) && Distinct(tags)
  }

  /** The list the component starts with. */
  const InitialTags: seq<String> := ["basil", "tomato", "pasta"]

  lemma {:induction false} InitialTagsValid()
    ensures ValidTags(InitialTags)
  {
  }

  /** Adding `raw` succeeds when it normalises to a non-empty tag that is not
      already in the list. */
  predicate Accepts(tags: seq<String>, raw: String) {
    Normalize(raw) != [] && Normalize(raw) !in tags
  }

  lemma {:induction false} AppendKeepsValid(tags: seq<String>, raw: String)
    requires ValidTags(tags)
    requires Accepts(tags, raw)
    ensures ValidTags(tags + [Normalize(raw)])
  {
  }

  /** A tag is its own normal form. */
  lemma {:induction false} NormalizeOfTag(t: String)
    requires IsTrimmed(t) && IsLower(t)
    ensures Normalize(t) == t
  {
    TrimOfTrimmed(t);
    ToLowerOfLower(t);
  }

  lemma {:induction false} NormalizeIdempotent(x: String)
    ensures Normalize(Normalize(x)) == Normalize(x)
  {
    NormalizeOfTag(Normalize(x));
  }

  /** Lower-casing before trimming would give the same tag. */
  lemma {:induction false} NormalizeIgnoresCase(x: String)
    ensures Normalize(ToLower(x)) == Normalize(x)
  {
    TrimToLowerCommute(x);
    ToLowerIsLower(Trim(x));
    ToLowerOfLower(ToLower(Trim(x)));
  }

  /** Typing an existing tag again, in any mix of case and with any
      whitespace around it, is rejected as a duplicate. */
  lemma {:induction false} RetypedTagRejected(tags: seq<String>, i: nat, a: String, x: String, b: String)
    requires ValidTags(tags) && i < |tags|
    requires AllWhitespace(a) && AllWhitespace(b)
    requires ToLower(x) == tags[i]
    ensures !Accepts(tags, a + x + b)
  {
    ToLowerKeepsWhitespace(x);
    TrimOfPadded(a, x, b);
  }

  /** `tags.filter(t => t !== r)`: every entry equal to `r` dropped, the rest
      kept in their order. */
  function Without(tags: seq<String>, r: String): (out: seq<String>)
    ensures |out| <= |tags|
    ensures forall x :: x in out <==> x in tags && x != r
  {
    if tags == [] then []
    else
      var rest := Without(tags[1..], r);
      assert forall x :: x in tags <==> x == tags[0] || x in tags[1..];
      (if tags[0] == r then [] else [tags[0]]) + rest
  }

  /** Filtering distributes over concatenation: the order of what is kept is
      the order of the input. */
  lemma {:induction false} WithoutConcat(a: seq<String>, b: seq<String>, r: String)
    ensures Without(a + b, r) == Without(a, r) + Without(b, r)
  {
    if a == [] {
      assert a + b == b;
    } else {
      assert (a + b)[0] == a[0];
      assert (a + b)[1..] == a[1..] + b;
      WithoutConcat(a[1..], b, r);
    }
  }

  /** Removing a tag that is not there changes nothing. */
  lemma {:induction false} WithoutAbsent(tags: seq<String>, r: String)
    requires r !in tags
    ensures Without(tags, r) == tags
  {
    if tags != [] {
      WithoutAbsent(tags[1..], r);
      assert tags == [tags[0]] + tags[1..];
    }
  }

  /** In a list without duplicates, removing the entry at `i` drops exactly
      that entry. */
  lemma {:induction false} WithoutAt(tags: seq<String>, i: nat)
    requires Distinct(tags)
    requires i < |tags|
    ensures Without(tags, tags[i]) == tags[..i] + tags[i + 1..]
  {
    var r := tags[i];
    var rest := tags[1..];
    if i == 0 {
      assert r !in rest;
      WithoutAbsent(rest, r);
    } else {
      assert Distinct(rest);
      assert rest[i - 1] == r;
      WithoutAt(rest, i - 1);
      assert tags[0] != r;
      DropAfterHead(tags, i);
    }
  }

  lemma {:induction false} DropAfterHead(tags: seq<String>, i: nat)
    requires 0 < i < |tags|
    ensures tags[..i] + tags[i + 1..] == [tags[0]] + (tags[1..][..i - 1] + tags[1..][i..])
  {
    assert tags[..i] == [tags[0]] + tags[1..][..i - 1];
    assert tags[i + 1..] == tags[1..][i..];
  }

  /** In a valid list, removing drops one entry exactly when the tag is
      present. */
  lemma {:induction false} WithoutLength(tags: seq<String>, r: String)
    requires ValidTags(tags)
    ensures |Without(tags, r)| == |tags| - (if r in tags then 1 else 0)
  {
    if r in tags {
      var i :| 0 <= i < |tags| && tags[i] == r;
      WithoutAt(tags, i);
    } else {
      WithoutAbsent(tags, r);
    }
  }

  /** Removing the last tag of a valid list leaves the list without its last
      entry. */
  lemma {:induction false} WithoutLast(tags: seq<String>)
    requires ValidTags(tags)
    requires tags != []
    ensures Without(tags, tags[|tags| - 1]) == tags[..|tags| - 1]
  {
    WithoutAt(tags, |tags| - 1);
    assert tags[|tags|..] == [];
  }

  lemma {:induction false} WithoutKeepsValid(tags: seq<String>, r: String)
    requires ValidTags(tags)
    ensures ValidTags(Without(tags, r))
  {
    if tags != [] {
      WithoutKeepsValid(tags[1..], r);
      assert tags[0] !in tags[1..];
    }
  }
}
