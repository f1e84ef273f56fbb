/** The JavaScript string operations both components rely on, restricted to
    ASCII: `trim()`, `toLowerCase()`, `split(",")` and `includes(...)`. */
module Text {

  type String = seq<char>

  /** The ASCII characters that `trim()` and `parseInt` skip: space, and tab,
      line feed, vertical tab, form feed and carriage return (codes 9 to 13). */
  predicate IsWhitespace(c: char) {
    c == ' ' || '\t' <= c <= '\r'
  }

  predicate AllWhitespace(s: String) {
    forall i :: 0 <= i < |s| ==> IsWhitespace(s[i])
  }

  /** Neither end of `s` is whitespace. */
  predicate IsTrimmed(s: String) {
    s == [] || (!IsWhitespace(s[0]) && !IsWhitespace(s[|s| - 1]))
  }

  /** The number of whitespace characters `s` starts with. */
  function LeadingBlanks(s: String): (n: nat)
    ensures n <= |s|
    ensures forall k :: 0 <= k < n ==> IsWhitespace(s[k])
    ensures n < |s| ==> !IsWhitespace(s[n])
  {
    if s != [] && IsWhitespace(s[0]) then 1 + LeadingBlanks(s[1..]) else 0
  }

  /** The number of whitespace characters `s` ends with. */
  function TrailingBlanks(s: String): (n: nat)
    ensures n <= |s|
    ensures forall k :: |s| - n <= k < |s| ==> IsWhitespace(s[k])
    ensures n < |s| ==> !IsWhitespace(s[|s| - 1 - n])
  {
    if s != [] && IsWhitespace(s[|s| - 1]) then 1 + TrailingBlanks(s[..|s| - 1]) else 0
  }

  /** A whitespace-only prefix followed by a visible character (or by
      nothing) is exactly what `LeadingBlanks` counts. */
  lemma {:induction false} LeadingBlanksUnique(s: String, n: nat)
    requires n <= |s|
    requires forall k :: 0 <= k < n ==> IsWhitespace(s[k])
    requires n < |s| ==> !IsWhitespace(s[n])
    ensures LeadingBlanks(s) == n
  {
    if n > 0 {
      LeadingBlanksUnique(s[1..], n - 1);
    }
  }

  /** A whitespace-only suffix preceded by a visible character (or by
      nothing) is exactly what `TrailingBlanks` counts. */
  lemma {:induction false} TrailingBlanksUnique(s: String, n: nat)
    requires n <= |s|
    requires forall k :: |s| - n <= k < |s| ==> IsWhitespace(s[k])
    requires n < |s| ==> !IsWhitespace(s[|s| - 1 - n])
    ensures TrailingBlanks(s) == n
  {
    if n > 0 {
      TrailingBlanksUnique(s[..|s| - 1], n - 1);
    }
  }

  /** `s` without its leading whitespace (how `parseInt` starts). */
  function TrimStart(s: String): (r: String)
    ensures r == [] || !IsWhitespace(r[0])
  {
    s[LeadingBlanks(s)..]
  }

  /** `s` is `m` padded with whitespace only, `m` starting at index `i`. */
  predicate PaddedAt(s: String, m: String, i: int) {
    && 0 <= i && i + |m| <= |s|
    && (forall k :: 0 <= k < |m| ==> m[k] == s[i + k])
    && (forall k :: 0 <= k < i ==> IsWhitespace(s[k]))
    && (forall k :: i + |m| <= k < |s| ==> IsWhitespace(s[k]))
  }

  /** JavaScript's `s.trim()`: what lies between the leading and the
      trailing whitespace of `s`, with no whitespace at either end. */
  function Trim(s: String): (r: String)
    ensures IsTrimmed(r)
    ensures PaddedAt(s, r, LeadingBlanks(s))
  {
    var i := LeadingBlanks(s);
    if i == |s| then []
    else
      var j := |s| - TrailingBlanks(s);
      assert i < j;
      s[i..j]
  }

  /** Trimming is determined by the decomposition: whatever whitespace pads a
      trimmed string on either side, `trim()` gives back exactly that string. */
  lemma {:induction false} TrimOfPadded(a: String, m: String, b: String)
    requires AllWhitespace(a) && AllWhitespace(b) && IsTrimmed(m)
    ensures Trim(a + m + b) == m
  {
    var s := a + m + b;
    if m == [] {
      assert LeadingBlanks(s) == |s|;
    } else {
      assert s[|a|] == m[0];
      LeadingBlanksUnique(s, |a|);
      assert s[|s| - 1 - |b|] == m[|m| - 1];
      TrailingBlanksUnique(s, |b|);
      assert s[|a|..|s| - |b|] == m;
    }
  }

  /** `trim()` only removes characters: one absent from `s` is absent from
      its trim. */
  lemma {:induction false} TrimKeepsOut(s: String, c: char)
    requires c !in s
    ensures c !in Trim(s)
  {
    var m, i := Trim(s), LeadingBlanks(s);
    forall k | 0 <= k < |m| ensures m[k] != c {
      assert m[k] == s[i + k];
    }
  }

  lemma {:induction false} TrimOfTrimmed(m: String)
    requires IsTrimmed(m)
    ensures Trim(m) == m
  {
    assert [] + m + [] == m;
    TrimOfPadded([], m, []);
  }

  lemma {:induction false} TrimIdempotent(s: String)
    ensures Trim(Trim(s)) == Trim(s)
  {
    TrimOfTrimmed(Trim(s));
  }

  /** `trim()` yields the empty string exactly when `s` is blank. */
  lemma {:induction false} TrimEmptyIffBlank(s: String)
    ensures Trim(s) == [] <==> AllWhitespace(s)
  {
    if AllWhitespace(s) {
      assert LeadingBlanks(s) == |s|;
    }
  }

  predicate IsUpper(c: char) {
    'A' <= c <= 'Z'
  }

  /** `toLowerCase()` on one ASCII character. */
  function LowerChar(c: char): char {
    if IsUpper(c) then (c as int - 'A' as int + 'a' as int) as char else c
  }

  /** No character of `s` is an upper-case letter. */
  predicate IsLower(s: String) {
    forall i :: 0 <= i < |s| ==> !IsUpper(s[i])
  }

  /** JavaScript's `s.toLowerCase()`: each letter replaced by its lower-case
      form, everything else kept, position by position. */
  function ToLower(s: String): (r: String)
    ensures |r| == |s|
    ensures forall i :: 0 <= i < |s| ==> r[i] == LowerChar(s[i])
  {
    if s == [] then [] else [LowerChar(s[0])] + ToLower(s[1..])
  }

  lemma {:induction false} ToLowerIsLower(s: String)
    ensures IsLower(ToLower(s))
  {
  }

  /** Lower-casing a string that has no capitals changes nothing. */
  lemma {:induction false} ToLowerOfLower(s: String)
    requires IsLower(s)
    ensures ToLower(s) == s
  {
  }

  /** Lower-casing never turns whitespace into a visible character or back. */
  lemma {:induction false} ToLowerKeepsWhitespace(s: String)
    ensures AllWhitespace(ToLower(s)) <==> AllWhitespace(s)
    ensures IsTrimmed(ToLower(s)) <==> IsTrimmed(s)
  {
  }

  /** Lower-casing keeps the whitespace at both ends of `s` where it is. */
  lemma {:induction false} ToLowerBlanks(s: String)
    ensures LeadingBlanks(ToLower(s)) == LeadingBlanks(s)
    ensures TrailingBlanks(ToLower(s)) == TrailingBlanks(s)
  {
    var l := ToLower(s);
    assert forall k :: 0 <= k < |s| ==> (IsWhitespace(l[k]) <==> IsWhitespace(s[k]));
    LeadingBlanksUnique(l, LeadingBlanks(s));
    TrailingBlanksUnique(l, TrailingBlanks(s));
  }

  lemma {:induction false} ToLowerSlice(s: String, i: nat, j: nat)
    requires i <= j <= |s|
    ensures ToLower(s)[i..j] == ToLower(s[i..j])
  {
  }

  /** `s.trim().toLowerCase()` and `s.toLowerCase().trim()` agree. */
  lemma {:induction false} TrimToLowerCommute(s: String)
    ensures Trim(ToLower(s)) == ToLower(Trim(s))
  {
    var l := ToLower(s);
    var i, j := LeadingBlanks(s), |s| - TrailingBlanks(s);
    ToLowerBlanks(s);
    TrimBetween(s, i, j);
    TrimBetween(l, i, j);
    if i < |s| {
      ToLowerSlice(s, i, j);
    }
  }

  /** `trim()` as a slice: from the first visible character up to and
      including the last one, or empty when there is none. */
  lemma {:induction false} TrimBetween(s: String, i: nat, j: nat)
    requires i == LeadingBlanks(s) && j == |s| - TrailingBlanks(s)
    ensures i == |s| ==> Trim(s) == []
    ensures i < |s| ==> i < j && Trim(s) == s[i..j]
  {
  }

  /** Number of occurrences of `c` in `s`. */
  function Count(s: String, c: char): (n: nat)
    ensures n <= |s|
    ensures n == 0 <==> c !in s
  {
    if s == [] then 0 else (if s[0] == c then 1 else 0) + Count(s[1..], c)
  }

  /** JavaScript's `s.split(sep)` for a one-character separator: the pieces
      between separators, one more piece than there are separators, none of
      them containing the separator. */
  function Split(s: String, sep: char): (r: seq<String>)
    ensures |r| == Count(s, sep) + 1
    ensures forall i :: 0 <= i < |r| ==> sep !in r[i]
  {
    if s == [] then [[]]
    else
      var rest := Split(s[1..], sep);
      if s[0] == sep then [[]] + rest
      else [[s[0]] + rest[0]] + rest[1..]
  }

  /** JavaScript's `parts.join(sep)` for a non-empty list. */
  function Join(parts: seq<String>, sep: char): String
    requires |parts| >= 1
  {
    if |parts| == 1 then parts[0] else parts[0] + [sep] + Join(parts[1..], sep)
  }

  /** Splitting loses nothing: joining the pieces restores the string. */
  lemma {:induction false} JoinSplit(s: String, sep: char)
    ensures Join(Split(s, sep), sep) == s
  {
    if s != [] {
      var rest := Split(s[1..], sep);
      JoinSplit(s[1..], sep);
      if s[0] == sep {
        assert Split(s, sep) == [[]] + rest;
        assert ([[]] + rest)[1..] == rest;
      } else {
        assert Split(s, sep) == [[s[0]] + rest[0]] + rest[1..];
        JoinGluesFirst(s[0], rest[0], rest[1..], sep);
        assert [rest[0]] + rest[1..] == rest;
        assert s == [s[0]] + s[1..];
      }
    }
  }

  lemma {:induction false} JoinGluesFirst(c: char, p: String, tail: seq<String>, sep: char)
    ensures Join([[c] + p] + tail, sep) == [c] + Join([p] + tail, sep)
  {
    if tail != [] {
      assert ([[c] + p] + tail)[1..] == tail;
      assert ([p] + tail)[1..] == tail;
    }
  }

  /** Text without a separator glues onto the first piece of what follows. */
  lemma {:induction false} SplitPrefix(p: String, t: String, sep: char)
    requires sep !in p
    ensures Split(p + t, sep) == [p + Split(t, sep)[0]] + Split(t, sep)[1..]
  {
    var st := Split(t, sep);
    if p == [] {
      assert p + t == t;
      assert [] + st[0] == st[0];
      assert st == [st[0]] + st[1..];
    } else {
      var pt := p + t;
      assert pt[0] == p[0] && pt[0] != sep;
      assert pt[1..] == p[1..] + t;
      SplitPrefix(p[1..], t, sep);
      var r := Split(pt[1..], sep);
      assert r == [p[1..] + st[0]] + st[1..];
      assert Split(pt, sep) == [[p[0]] + r[0]] + r[1..];
      assert r[1..] == st[1..];
      HeadThenRest(p, st[0]);
    }
  }

  lemma {:induction false} HeadThenRest(p: String, q: String)
    requires p != []
    ensures [p[0]] + (p[1..] + q) == p + q
  {
    assert p == [p[0]] + p[1..];
  }

  /** Splitting undoes joining, when no piece contains the separator. */
  lemma {:induction false} SplitJoin(parts: seq<String>, sep: char)
    requires |parts| >= 1
    requires forall i :: 0 <= i < |parts| ==> sep !in parts[i]
    ensures Split(Join(parts, sep), sep) == parts
  {
    if |parts| == 1 {
      assert parts[0] + [] == parts[0];
      SplitPrefix(parts[0], [], sep);
    } else {
      var j := Join(parts[1..], sep);
      SplitJoin(parts[1..], sep);
      assert Join(parts, sep) == parts[0] + ([sep] + j);
      SplitPrefix(parts[0], [sep] + j, sep);
      assert ([sep] + j)[1..] == j;
      assert parts[0] + [] == parts[0];
      assert parts == [parts[0]] + parts[1..];
    }
  }

  /** `t` occurs in `s` starting at index `i`. */
  predicate OccursAt(s: String, t: String, i: int) {
    0 <= i <= |s| - |t| && s[i..i + |t|] == t
  }

  /** JavaScript's `s.includes(t)`: `t` occurs in `s` at some position
      (the empty string occurs everywhere). */
  function Contains(s: String, t: String): (b: bool)
    ensures b <==> exists i :: OccursAt(s, t, i)
  {
    if |t| > |s| then false
    else if t <= s then
      assert OccursAt(s, t, 0);
      true
    else
      ContainsShift(s, t);
      Contains(s[1..], t)
  }

  /** When `t` is not a prefix of `s`, it occurs in `s` exactly when it
      occurs in the tail of `s`. */
  lemma {:induction false} ContainsShift(s: String, t: String)
    requires s != [] && !(t <= s)
    ensures (exists i :: OccursAt(s, t, i)) <==> (exists i :: OccursAt(s[1..], t, i))
  {
    if exists i :: OccursAt(s[1..], t, i) {
      var i :| OccursAt(s[1..], t, i);
      assert s[i + 1..i + 1 + |t|] == s[1..][i..i + |t|];
      assert OccursAt(s, t, i + 1);
    }
    if exists i :: OccursAt(s, t, i) {
      var i :| OccursAt(s, t, i);
      assert i != 0;
      assert s[1..][i - 1..i - 1 + |t|] == s[i..i + |t|];
      assert OccursAt(s[1..], t, i - 1);
    }
  }
}
