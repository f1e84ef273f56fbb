/** The recipe card: how a loosely typed recipe record from the search
    service is turned into what the card shows (the three times, the
    ingredient list, which ingredients match the search, the first eight
    badges and the "+N more" count). */
module RecipeCard {
  import opened Wrappers
  import opened Text
  import opened JsParseInt

  /** `cook_time` or `prep_time` as it arrives: a number, a string, or
      absent (`null` or `undefined`). */
  datatype TimeField = NumberTime(minutes: int) | StringTime(text: String) | MissingTime

  /** `ingredients` as it arrives: an array, a string (a JSON array or a
      comma-separated list), or anything else. */
  datatype IngredientsField =
    | IngredientArray(items: seq<String>)
    | IngredientString(text: String)
    | OtherIngredients

  datatype Recipe = Recipe(
    id: int,
    title: String,
    cookTime: TimeField,
    prepTime: TimeField,
    ingredients: IngredientsField,
    cuisine: String,
    category: String,
    author: String,
    image: String)

  /** `parseInt(text || "0") || 0`: the empty string is replaced by "0"
      before parsing, which reads the same as parsing it directly, since
      both come out as zero. */
  function ParseMinutes(text: String): (minutes: int)
    ensures minutes == ParseInt(text).GetOr(0)
  {
    var source := if text == [] then "0" else text;
    assert text == [] ==> ParseInt(source) == Some(0) by {
      ParseIntFormatInt(0);
    }
    ParseInt(source).GetOr(0)
  }

  /** `typeof t === "number" ? t : parseInt(t?.toString() || "0") || 0`:
      a number is kept, text is read by `parseInt`, and whatever `parseInt`
      cannot read (as well as an absent field) counts as zero minutes. */
  function CoerceTime(t: TimeField): (minutes: int)
    ensures t.NumberTime? ==> minutes == t.minutes
    ensures t.StringTime? ==> minutes == ParseInt(t.text).GetOr(0)
    ensures t.MissingTime? ==> minutes == 0
  {
    match t
    case NumberTime(n) => n
    case StringTime(s) => ParseMinutes(s)
    case MissingTime =>
      assert ParseInt("0") == Some(0) by {
        ParseIntFormatInt(0);
      }
      ParseMinutes("0")
  }

  /** A time written as a decimal number, possibly followed by a unit as in
      "15 min", is read as that number. */
  lemma {:induction false} CoerceTimeOfText(n: int, rest: String)
    requires rest == [] || !IsDigit(rest[0], 10)
    requires n == 0 && rest != [] ==> rest[0] != 'x' && rest[0] != 'X'
    ensures CoerceTime(StringTime(FormatInt(n) + rest)) == n
  {
    ParseIntOfFormatted(n, rest);
  }

  /** Text that holds no number after its leading whitespace and optional
      sign is zero minutes: blank text, "-abc", "+", "about an hour". */
  lemma {:induction false} CoerceTimeOfWords(w: String, sign: String, s: String)
    requires AllWhitespace(w)
    requires IsSign(sign)
    requires s == [] || !IsDigit(s[0], 10)
    requires sign == "" && s != [] ==> !IsWhitespace(s[0]) && s[0] != '+' && s[0] != '-'
    ensures CoerceTime(StringTime(w + sign + s)) == 0
  {
    ParseIntOfNoNumber(w, sign, s);
  }

  /** A signed number: "+5" is five minutes. */
  lemma {:induction false} CoerceTimeOfPlusFive()
    ensures CoerceTime(StringTime("+5")) == 5
  {
    assert "" + "+" + "5" + "" == "+5";
    assert DigitsValue("5", 10) == 5;
    ParseIntOfDecimal("", "+", "5", "");
  }

  /** Leading zeros and a unit: " 007 min" is seven minutes. */
  lemma {:induction false} CoerceTimeOfPaddedSeven()
    ensures CoerceTime(StringTime(" 007 min")) == 7
  {
    assert " " + "" + "007" + " min" == " 007 min";
    assert DigitsValue("0", 10) == 0 by {
      assert "0"[..0] == [];
    }
    assert DigitsValue("00", 10) == 0 by {
      assert "00"[..1] == "0";
    }
    assert DigitsValue("007", 10) == 7 by {
      assert "007"[..2] == "00";
    }
    ParseIntOfDecimal(" ", "", "007", " min");
  }

  /** A hexadecimal literal: "0x1E" is thirty minutes. */
  lemma {:induction false} CoerceTimeOfHex()
    ensures CoerceTime(StringTime("0x1E")) == 30
  {
    assert "" + "" + ['0', 'x'] + "1E" + "" == "0x1E";
    assert DigitsValue("1E", 16) == 30;
    ParseIntOfHex("", "", 'x', "1E", "");
  }

  /** A "0x" or "0X" prefix with no hexadecimal digit after it is zero
      minutes: "0x", "-0xg", " 0X min". */
  lemma {:induction false} CoerceTimeOfBareHexPrefix(w: String, sign: String, x: char, rest: String)
    requires AllWhitespace(w)
    requires IsSign(sign)
    requires x == 'x' || x == 'X'
    requires rest == [] || !IsDigit(rest[0], 16)
    ensures CoerceTime(StringTime(w + sign + ['0', x] + rest)) == 0
  {
    ParseIntOfBareHexPrefix(w, sign, x, rest);
  }

  /** A sign followed by words: "-abc" is zero minutes. */
  lemma {:induction false} CoerceTimeOfSignedWords()
    ensures CoerceTime(StringTime("-abc")) == 0
  {
    assert "" + "-" + "abc" == "-abc";
    CoerceTimeOfWords("", "-", "abc");
  }

  /** `text.split(",").map(i => i.trim())`. */
  function TrimAll(parts: seq<String>): (r: seq<String>)
    ensures |r| == |parts|
    ensures forall i :: 0 <= i < |r| ==> r[i] == Trim(parts[i]) && IsTrimmed(r[i])
  {
    seq(|parts|, i requires 0 <= i < |parts| => Trim(parts[i]))
  }

  /** The immediately invoked function behind `ingredientsArray`. An array is
      used as it is; a string is first given to `JSON.parse`, whose result is
      used when it is an array (`parseJsonArray` stands for that library
      call); otherwise the string is cut at every comma and each piece
      trimmed; anything else gives no ingredients. */
  function NormalizeIngredients(field: IngredientsField, parseJsonArray: String -> Option<seq<String>>)
    : (items: seq<String>)
    ensures field.IngredientArray? ==> items == field.items
    ensures field.IngredientString? && parseJsonArray(field.text).Some? ==>
              items == parseJsonArray(field.text).value
    ensures field.IngredientString? && parseJsonArray(field.text).None? ==>
              && |items| == Count(field.text, ',') + 1
              && forall i :: 0 <= i < |items| ==> IsTrimmed(items[i]) && ',' !in items[i]
    ensures field.OtherIngredients? ==> items == []
  {
    match field
    case IngredientArray(xs) => xs
    case IngredientString(s) => (
      match parseJsonArray(s)
      case Some(parsed) => parsed
      case None =>
        var parts := Split(s, ',');
        var items := TrimAll(parts);
        assert forall i :: 0 <= i < |items| ==> ',' !in items[i] by {
          forall i | 0 <= i < |items| ensures ',' !in items[i] {
            TrimKeepsOut(parts[i], ',');
          }
        }
        items)
    case OtherIngredients => []
  }

  /** A comma-separated list that is not JSON comes back piece by piece, each
      piece trimmed: "basil, tomato ,pasta" gives basil, tomato and pasta. */
  lemma {:induction false} CommaListPieces(parts: seq<String>, parseJsonArray: String -> Option<seq<String>>)
    requires |parts| >= 1
    requires forall i :: 0 <= i < |parts| ==> ',' !in parts[i]
    requires parseJsonArray(Join(parts, ',')).None?
    ensures NormalizeIngredients(IngredientString(Join(parts, ',')), parseJsonArray) == TrimAll(parts)
  {
    SplitJoin(parts, ',');
  }

  /** Items that are already trimmed survive the round trip through a
      comma-separated string unchanged. */
  lemma {:induction false} CommaListRoundTrip(items: seq<String>, parseJsonArray: String -> Option<seq<String>>)
    requires |items| >= 1
    requires forall i :: 0 <= i < |items| ==> ',' !in items[i] && IsTrimmed(items[i])
    requires parseJsonArray(Join(items, ',')).None?
    ensures NormalizeIngredients(IngredientString(Join(items, ',')), parseJsonArray) == items
  {
    CommaListPieces(items, parseJsonArray);
    forall i | 0 <= i < |items| ensures TrimAll(items)[i] == items[i] {
      TrimOfTrimmed(items[i]);
    }
  }

  /** `searchIngredients.some(t => ingredient.toLowerCase().includes(t.toLowerCase()))`. */
  function Matches(ingredient: String, searchIngredients: seq<String>): (b: bool)
    ensures b <==> exists k :: 0 <= k < |searchIngredients|
                               && Contains(ToLower(ingredient), ToLower(searchIngredients[k]))
  {
    if searchIngredients == [] then false
    else
      var rest := searchIngredients[1..];
      assert forall k :: 1 <= k < |searchIngredients| ==> searchIngredients[k] == rest[k - 1];
      Contains(ToLower(ingredient), ToLower(searchIngredients[0])) || Matches(ingredient, rest)
  }

  /** A search tag (lower-case, as the tag input stores it) matches every
      ingredient that contains it in any letter case. */
  lemma {:induction false} SearchTagMatches(ingredient: String, searchIngredients: seq<String>, k: nat)
    requires k < |searchIngredients|
    requires IsLower(searchIngredients[k])
    requires Contains(ToLower(ingredient), searchIngredients[k])
    ensures Matches(ingredient, searchIngredients)
  {
    ToLowerOfLower(searchIngredients[k]);
  }

  /** Matching ignores the letter case of the ingredient. */
  lemma {:induction false} MatchesIgnoresCase(ingredient: String, searchIngredients: seq<String>)
    ensures Matches(ToLower(ingredient), searchIngredients) == Matches(ingredient, searchIngredients)
  {
    ToLowerIsLower(ingredient);
    ToLowerOfLower(ToLower(ingredient));
  }

  datatype HighlightedIngredient = HighlightedIngredient(ingredient: String, isMatch: bool)

  /** `highlightedIngredients`: one entry per ingredient, in order, marked
      when some search term occurs in it, ignoring letter case. With no
      search terms nothing is marked; an empty term marks everything. */
  function Highlight(items: seq<String>, searchIngredients: seq<String>): (h: seq<HighlightedIngredient>)
    ensures |h| == |items|
    ensures forall i :: 0 <= i < |h| ==> h[i].ingredient == items[i]
    ensures forall i :: 0 <= i < |h| ==>
              (h[i].isMatch <==> exists k :: 0 <= k < |searchIngredients|
                                             && Contains(ToLower(items[i]), ToLower(searchIngredients[k])))
    ensures searchIngredients == [] ==> forall i :: 0 <= i < |h| ==> !h[i].isMatch
    ensures [] in searchIngredients ==> forall i :: 0 <= i < |h| ==> h[i].isMatch
  {
    seq(|items|, i requires 0 <= i < |items| => HighlightedIngredient(items[i], Matches(items[i], searchIngredients)))
  }

  /** At most this many ingredient badges are shown. */
  const MaxBadges: nat := 8

  /** `highlightedIngredients.slice(0, 8)`: the first eight entries, or all
      of them when there are fewer. */
  function ShownBadges(h: seq<HighlightedIngredient>): (shown: seq<HighlightedIngredient>)
    ensures shown <= h
    ensures |shown| == if |h| <= MaxBadges then |h| else MaxBadges
  {
    if |h| <= MaxBadges then h else h[..MaxBadges]
  }

  /** The "+N more" badge: present exactly when there are more than eight
      ingredients, and then counting the ones not shown. */
  function MoreBadge(count: nat): (more: Option<nat>)
    ensures more.Some? <==> count > MaxBadges
    ensures more.Some? ==> more.value == count - MaxBadges && more.value >= 1
  {
    if count > MaxBadges then Some(count - MaxBadges) else None
  }

  /** What one card shows. `ratings` is not part of this model. */
  datatype CardView = CardView(
    title: String,
    author: String,
    photo: Option<String>,
    cuisineBadge: Option<String>,
    categoryBadge: Option<String>,
    cookTime: int,
    prepTime: int,
    totalTime: int,
    badges: seq<HighlightedIngredient>,
    more: Option<nat>)

  /** `RecipeCard`: the card for `recipe` under the current search. The
      total time is the sum of the two coerced times; the badges are the
      leading entries of the highlighted ingredient list, and together with
      the "+N more" count they account for every ingredient. */
  function RenderCard(recipe: Recipe, searchIngredients: seq<String>,
                      parseJsonArray: String -> Option<seq<String>>): (v: CardView)
    ensures v.cookTime == CoerceTime(recipe.cookTime) && v.prepTime == CoerceTime(recipe.prepTime)
    ensures v.totalTime == v.cookTime + v.prepTime
    ensures var items := NormalizeIngredients(recipe.ingredients, parseJsonArray);
            && |v.badges| == (if |items| <= MaxBadges then |items| else MaxBadges)
            && (forall i :: 0 <= i < |v.badges| ==>
                  v.badges[i] == Highlight(items, searchIngredients)[i])
            && (forall i :: 0 <= i < |v.badges| ==> v.badges[i].ingredient == items[i])
            && (v.more.Some? <==> |items| > MaxBadges)
            && (v.more.Some? ==> v.more.value == |items| - MaxBadges)
            && |v.badges| + v.more.GetOr(0) == |items|
    ensures v.title == recipe.title && v.author == recipe.author
    ensures v.photo.Some? ==> v.photo.value == recipe.image
    ensures v.cuisineBadge.Some? ==> v.cuisineBadge.value == recipe.cuisine
    ensures v.categoryBadge.Some? ==> v.categoryBadge.value == recipe.category
    ensures v.photo.Some? <==> recipe.image != []
    ensures v.cuisineBadge.Some? <==> recipe.cuisine != []
    ensures v.categoryBadge.Some? <==> recipe.category != []
  {
    var cookTime := CoerceTime(recipe.cookTime);
    var prepTime := CoerceTime(recipe.prepTime);
    var ingredientsArray := NormalizeIngredients(recipe.ingredients, parseJsonArray);
    var highlighted := Highlight(ingredientsArray, searchIngredients);
    CardView(
      recipe.title,
      recipe.author,
      if recipe.image != [] then Some(recipe.image) else None,
      if recipe.cuisine != [] then Some(recipe.cuisine) else None,
      if recipe.category != [] then Some(recipe.category) else None,
      cookTime,
      prepTime,
      cookTime + prepTime,
      ShownBadges(highlighted),
      MoreBadge(|ingredientsArray|))
  }
}
