/** The text a recipe card derives from its recipe: the tag chips and the
    one-line ingredient preview. */
module RecipeCard {
  import opened Wrappers
  import opened Text
  import opened RecipeService

  /** A card shows at most this many tags. */
  const MaxTags: nat := 3

  /** The preview names at most this many ingredients. */
  const PreviewCount: nat := 4

  const TagSeparator: char := ','
  const PreviewSeparator: string := ", "
  const Ellipsis: string := "..."

  function Min(a: nat, b: nat): nat {
    if a <= b then a else b
  }

  /** The raw `strTags` field of a recipe. */
  function TagsField(recipe: Recipe): Option<string> {
    Field(recipe.fields, "strTags")
  }

  /** `getTags`: nothing when `strTags` is absent, null or empty; otherwise
      the trimmed comma-separated pieces, in order, empty pieces kept, cut
      to the first three. */
  function GetTags(recipe: Recipe): (tags: seq<string>)
    ensures |tags| <= MaxTags
    ensures !Truthy(TagsField(recipe)) ==> tags == []
    ensures Truthy(TagsField(recipe)) ==>
              var s := TagsField(recipe).value;
              && |tags| == Min(MaxTags, Count(s, TagSeparator) + 1)
              && forall k :: 0 <= k < |tags| ==> tags[k] == Trim(Split(s, TagSeparator)[k])
  {
    var field := TagsField(recipe);
    if !Truthy(field) then []
    else
      var pieces := Split(field.value, TagSeparator);
      var trimmed := seq(|pieces|, k requires 0 <= k < |pieces| => Trim(pieces[k]));
      trimmed[..Min(MaxTags, |trimmed|)]
  }

  /** Every tag is trimmed and holds no comma. */
  lemma TagsTrimmedWithoutSeparator(recipe: Recipe)
    ensures forall k :: 0 <= k < |GetTags(recipe)| ==>
              IsTrimmed(GetTags(recipe)[k]) && TagSeparator !in GetTags(recipe)[k]
  {
    var tags := GetTags(recipe);
    if Truthy(TagsField(recipe)) {
      var pieces := Split(TagsField(recipe).value, TagSeparator);
      SplitSpec(TagsField(recipe).value, TagSeparator);
      forall k | 0 <= k < |tags| ensures IsTrimmed(tags[k]) && TagSeparator !in tags[k] {
        TrimSpec(pieces[k]);
        var i := |pieces[k]| - |TrimStart(pieces[k])|;
        assert tags[k] == pieces[k][i..i + |tags[k]|];
        assert forall j :: 0 <= j < |tags[k]| ==> tags[k][j] == pieces[k][i + j];
      }
    }
  }

  /** Round trip: when `strTags` has at most three pieces and none carries
      surrounding whitespace, joining the tags with commas rebuilds it. */
  lemma TagsRebuildField(recipe: Recipe)
    requires Truthy(TagsField(recipe))
    requires Count(TagsField(recipe).value, TagSeparator) < MaxTags
    requires forall k :: 0 <= k < |Split(TagsField(recipe).value, TagSeparator)| ==>
               IsTrimmed(Split(TagsField(recipe).value, TagSeparator)[k])
    ensures Join(GetTags(recipe), [TagSeparator]) == TagsField(recipe).value
  {
    var s := TagsField(recipe).value;
    var pieces := Split(s, TagSeparator);
    forall k | 0 <= k < |pieces| ensures GetTags(recipe)[k] == pieces[k] {
      TrimOfTrimmed(pieces[k]);
    }
    assert GetTags(recipe) == pieces;
    JoinSplit(s, TagSeparator);
  }

  /** The names of the first `min(4, n)` ingredients. */
  function PreviewNames(recipe: Recipe): (names: seq<string>)
    ensures |names| == Min(PreviewCount, |recipe.ingredients|)
    ensures forall k :: 0 <= k < |names| ==> names[k] == recipe.ingredients[k].name
  {
    var shown := recipe.ingredients[..Min(PreviewCount, |recipe.ingredients|)];
    seq(|shown|, k requires 0 <= k < |shown| => shown[k].name)
  }

  /** `getIngredientsPreview`: the first four names joined by ", ", with
      "..." appended when more ingredients follow. */
  function IngredientsPreview(recipe: Recipe): (preview: string)
    ensures |recipe.ingredients| == 0 ==> preview == ""
    ensures |recipe.ingredients| > PreviewCount ==> EndsWith(preview, Ellipsis)
    ensures |recipe.ingredients| > 0 ==>
              PreviewBody(preview, recipe) == Join(PreviewNames(recipe), PreviewSeparator)
  {
    Join(PreviewNames(recipe), PreviewSeparator)
      + (if |recipe.ingredients| > PreviewCount then Ellipsis else "")
  }

  /** The part of a preview before the ellipsis, if the recipe has more
      ingredients than the preview shows. */
  function PreviewBody(preview: string, recipe: Recipe): string {
    if |recipe.ingredients| > PreviewCount && |Ellipsis| <= |preview|
    then preview[..|preview| - |Ellipsis|]
    else preview
  }

  /** Every piece with a space in front. */
  function Spaced(ys: seq<string>): (zs: seq<string>)
    ensures |zs| == |ys|
    ensures forall k :: 0 <= k < |zs| ==> zs[k] == " " + ys[k]
  {
    if |ys| == 0 then [] else [" " + ys[0]] + Spaced(ys[1..])
  }

  /** Each name but the first with the space of the ", " separator in front. */
  function SpacedAfterFirst(xs: seq<string>): (ys: seq<string>)
    ensures |ys| == |xs|
  {
    if |xs| == 0 then [] else [xs[0]] + Spaced(xs[1..])
  }

  lemma {:induction false} JoinSpaced(ys: seq<string>)
    requires |ys| >= 1
    ensures Join(Spaced(ys), [TagSeparator]) == " " + Join(ys, PreviewSeparator)
  {
    if |ys| > 1 {
      JoinSpaced(ys[1..]);
      assert Spaced(ys)[1..] == Spaced(ys[1..]);
    }
  }

  /** Joining with ", " is joining with "," after prefixing every name but
      the first with a space. */
  lemma {:induction false} JoinCommaSpace(xs: seq<string>)
    requires |xs| >= 1
    ensures Join(xs, PreviewSeparator) == Join(SpacedAfterFirst(xs), [TagSeparator])
  {
    if |xs| > 1 {
      var ys := SpacedAfterFirst(xs);
      JoinSpaced(xs[1..]);
      assert ys[1..] == Spaced(xs[1..]);
      assert [TagSeparator] + (" " + Join(xs[1..], PreviewSeparator))
          == PreviewSeparator + Join(xs[1..], PreviewSeparator);
    }
  }

  /** Reading a preview back: when no ingredient name holds a comma, cutting
      the preview's body at its commas gives exactly the first `min(4, n)`
      names in order (each after the first still led by the separator's space). */
  lemma PreviewSplitsIntoNames(recipe: Recipe)
    requires |recipe.ingredients| > 0
    requires forall k :: 0 <= k < |recipe.ingredients| ==> TagSeparator !in recipe.ingredients[k].name
    ensures var pieces := Split(PreviewBody(IngredientsPreview(recipe), recipe), TagSeparator);
            && |pieces| == Min(PreviewCount, |recipe.ingredients|)
            && pieces[0] == recipe.ingredients[0].name
            && forall k :: 1 <= k < |pieces| ==> pieces[k] == " " + recipe.ingredients[k].name
  {
    var names := PreviewNames(recipe);
    var ys := SpacedAfterFirst(names);
    JoinCommaSpace(names);
    forall k | 0 <= k < |ys| ensures TagSeparator !in ys[k] {
      if k > 0 {
        assert ys[k] == Spaced(names[1..])[k - 1];
      }
    }
    SplitJoin(ys, TagSeparator);
  }

  /** A join of non-empty pieces ends with the last piece's last character. */
  lemma {:induction false} JoinLastChar(xs: seq<string>, sep: string)
    requires |xs| >= 1 && xs[|xs| - 1] != ""
    ensures var j := Join(xs, sep);
            |j| > 0 && j[|j| - 1] == xs[|xs| - 1][|xs[|xs| - 1]| - 1]
  {
    if |xs| > 1 {
      JoinLastChar(xs[1..], sep);
    }
  }

  /** The preview ends with "..." exactly when the recipe has more than four
      ingredients, provided no name that could be shown last ends in '.'. */
  lemma EllipsisIffMore(recipe: Recipe)
    requires forall k :: 0 <= k < |recipe.ingredients| ==>
               recipe.ingredients[k].name != "" && recipe.ingredients[k].name[|recipe.ingredients[k].name| - 1] != '.'
    ensures EndsWith(IngredientsPreview(recipe), Ellipsis) <==> |recipe.ingredients| > PreviewCount
  {
    var p := IngredientsPreview(recipe);
    if 0 < |recipe.ingredients| <= PreviewCount {
      var names := PreviewNames(recipe);
      JoinLastChar(names, PreviewSeparator);
      assert p[|p| - 1] != '.';
      assert Ellipsis[|Ellipsis| - 1] == '.';
    }
  }
}
