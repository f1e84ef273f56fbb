/** The ingredient tag input component: its two pieces of state, the tag
    list and the text being typed, and the event handlers that update them. */
module IngredientInputComponent {
  import opened Wrappers
  import opened Text
  import opened Tags

  /** The key of a key-down event in the text field: the two keys the
      handler reacts to, and every other key. */
  datatype Key = Enter | Backspace | OtherKey

  class IngredientInput {
    /** The tags shown as badges, in the order they were added. */
    var ingredients: seq<String>
    /** The text currently in the input field. */
    var inputValue: String

    ghost predicate Valid()
      reads this
    {
      ValidTags(ingredients)
    }

    constructor ()
      ensures Valid()
      ensures ingredients == InitialTags && inputValue == ""
    {
      ingredients := InitialTags;
      inputValue := "";
      InitialTagsValid();
    }

    /** The input's `onChange`: the field shows what the user typed. */
    method SetInputValue(value: String)
      modifies this`inputValue
      ensures inputValue == value
    {
      inputValue := value;
    }

    /** `addIngredient`: append the normalised text and clear the field, or do
        nothing when it is blank or already a tag. */
    method AddIngredient(ingredient: String)
      requires Valid()
      modifies this
      ensures Valid()
      ensures Accepts(old(ingredients), ingredient) ==>
                ingredients == old(ingredients) + [Normalize(ingredient)] && inputValue == ""
      ensures !Accepts(old(ingredients), ingredient) ==>
                ingredients == old(ingredients) && inputValue == old(inputValue)
    {
      var trimmedIngredient := Normalize(ingredient);
      if trimmedIngredient != [] && trimmedIngredient !in ingredients {
        AppendKeepsValid(ingredients, ingredient);
        ingredients := ingredients + [trimmedIngredient];
        inputValue := "";
      }
    }

    /** `removeIngredient`: the list filtered of `ingredientToRemove`; one
        entry shorter exactly when the tag was there. */
    method RemoveIngredient(ingredientToRemove: String)
      requires Valid()
      modifies this`ingredients
      ensures Valid()
      ensures ingredients == Without(old(ingredients), ingredientToRemove)
      ensures |ingredients| == |old(ingredients)| - (if ingredientToRemove in old(ingredients) then 1 else 0)
      ensures ingredientToRemove !in old(ingredients) ==> ingredients == old(ingredients)
    {
      WithoutKeepsValid(ingredients, ingredientToRemove);
      WithoutLength(ingredients, ingredientToRemove);
      if ingredientToRemove !in ingredients {
        WithoutAbsent(ingredients, ingredientToRemove);
      }
      ingredients := Without(ingredients, ingredientToRemove);
    }

    /** `handleKeyDown`: Enter on non-blank text suppresses the browser's
        default and adds the text; Backspace in an empty field removes the
        last tag; every other key-down changes nothing. */
    method HandleKeyDown(key: Key) returns (defaultPrevented: bool)
      requires Valid()
      modifies this
      ensures Valid()
      ensures defaultPrevented <==> key == Enter && !AllWhitespace(old(inputValue))
      ensures defaultPrevented && Accepts(old(ingredients), old(inputValue)) ==>
                ingredients == old(ingredients) + [Normalize(old(inputValue))] && inputValue == ""
      ensures defaultPrevented && !Accepts(old(ingredients), old(inputValue)) ==>
                ingredients == old(ingredients) && inputValue == old(inputValue)
      ensures !defaultPrevented && key == Backspace && old(inputValue) == [] && old(ingredients) != [] ==>
                ingredients == old(ingredients)[..|old(ingredients)| - 1] && inputValue == old(inputValue)
      ensures !defaultPrevented && !(key == Backspace && old(inputValue) == [] && old(ingredients) != []) ==>
                ingredients == old(ingredients) && inputValue == old(inputValue)
    {
      TrimEmptyIffBlank(inputValue);
      if key == Enter && Trim(inputValue) != [] {
        defaultPrevented := true;
        AddIngredient(inputValue);
      } else if key == Backspace && inputValue == [] && |ingredients| > 0 {
        defaultPrevented := false;
        WithoutLast(ingredients);
        RemoveIngredient(ingredients[|ingredients| - 1]);
      } else {
        defaultPrevented := false;
      }
    }

    /** The Search button's `disabled`: nothing to search for, or a search
        already running. */
    function SearchDisabled(isLoading: bool): (disabled: bool)
      reads this
      ensures disabled <==> ClearDisabled() || isLoading
    {
      ingredients == [] || isLoading
    }

    /** The Clear button's `disabled`: there is no tag to clear. */
    function ClearDisabled(): (disabled: bool)
      reads this
      ensures disabled <==> forall t :: t !in ingredients
    {
      assert ingredients != [] ==> ingredients[0] in ingredients;
      ingredients == []
    }

    /** `handleSearch`: the list handed to `onSearch`, or `None` when the
        callback is not invoked. It is invoked exactly when the Search button
        would be enabled outside a running search, and then with a non-empty
        list of distinct, well-formed tags. */
    method HandleSearch() returns (searched: Option<seq<String>>)
      requires Valid()
      ensures searched.Some? <==> !SearchDisabled(false)
      ensures searched.Some? ==> searched.value == ingredients
      ensures searched.Some? ==> searched.value != [] && ValidTags(searched.value)
    {
      if |ingredients| > 0 {
        searched := Some(ingredients);
      } else {
        searched := None;
      }
    }

    /** The Clear button's `onClick`: the list is emptied, the typed text
        stays, and the button becomes disabled. */
    method Clear()
      requires Valid()
      modifies this`ingredients
      ensures Valid()
      ensures ingredients == [] && inputValue == old(inputValue)
      ensures ClearDisabled()
    {
      ingredients := [];
    }
  }
}
