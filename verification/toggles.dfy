/** The click handlers of the category buttons and of the combinable filter
    buttons, as transitions of the filter state. */
module Toggles {
  import opened Recipes
  import opened Sequences
  import opened RecipeFilter

  /** Clicking the button of `clicked`: the active category is cleared when
      it is `clicked`, otherwise `clicked` becomes the only active one. */
  function ClickCategory(active: Option<string>, clicked: string): (r: Option<string>)
    ensures r == None <==> active == Some(clicked)
    ensures r != None ==> r == Some(clicked)
  {
    if active == Some(clicked) then None else Some(clicked)
  }

  /** Clicking the same category twice returns to no category unless it was
      already the active one, in which case it is active again. */
  lemma ClickCategoryTwice(active: Option<string>, clicked: string)
    ensures ClickCategory(ClickCategory(active, clicked), clicked)
            == (if active == Some(clicked) then active else None)
  {
  }

  /** Clicking the button of filter `f`: removes `f` from the active set if
      present, adds it otherwise. */
  function ToggleCombiFilter(active: set<string>, f: string): (r: set<string>)
    ensures f in r <==> f !in active
    ensures forall g :: g != f ==> (g in r <==> g in active)
  {
    if f in active then active - {f} else active + {f}
  }

  /** Two clicks on the same combinable filter restore the original set. */
  lemma ToggleCombiTwice(active: set<string>, f: string)
    ensures ToggleCombiFilter(ToggleCombiFilter(active, f), f) == active
  {
  }

  /** Clicking a category that is not active and not empty narrows the
      displayed list to what the other filters keep of that category. */
  lemma ClickNewCategoryFilters(recipes: seq<Recipe>, q: Query, clicked: string)
    requires q.category != Some(clicked) && clicked != ""
    ensures var q' := q.(category := ClickCategory(q.category, clicked));
            GetFilteredRecipes(recipes, q')
            == Filter(GetFilteredRecipes(recipes, q.(category := None)), (x: Recipe) => x.category == clicked)
  {
    var q' := q.(category := ClickCategory(q.category, clicked));
    assert q'.(category := None) == q.(category := None);
    CategoryFilterExact(recipes, q');
  }

  /** Switching a combinable filter on never shows a recipe that was hidden
      before, and never reorders what stays. */
  lemma ToggleOnNarrows(recipes: seq<Recipe>, q: Query, f: string)
    requires f !in q.combi
    ensures SubseqOf(GetFilteredRecipes(recipes, q.(combi := ToggleCombiFilter(q.combi, f))),
                     GetFilteredRecipes(recipes, q))
  {
    var q' := q.(combi := ToggleCombiFilter(q.combi, f));
    forall x ensures Matches(x, q') ==> Matches(x, q) {
      assert PassesGluten(x, q') ==> PassesGluten(x, q);
      assert PassesVege(x, q') ==> PassesVege(x, q);
    }
    MatchesNarrowing(recipes, q, q');
  }

  /** Two clicks on combinable filters that were both off, whether on the
      same button or on two different ones, never show a recipe that was
      hidden before, and never reorder what stays. */
  lemma TwoClicksNarrow(recipes: seq<Recipe>, q: Query, f: string, g: string)
    requires f !in q.combi && g !in q.combi
    ensures SubseqOf(GetFilteredRecipes(recipes, q.(combi := ToggleCombiFilter(ToggleCombiFilter(q.combi, f), g))),
                     GetFilteredRecipes(recipes, q))
  {
    var q1 := q.(combi := ToggleCombiFilter(q.combi, f));
    var q2 := q1.(combi := ToggleCombiFilter(q1.combi, g));
    if f == g {
      ToggleCombiTwice(q.combi, f);
      assert q2 == q;
      SubseqRefl(GetFilteredRecipes(recipes, q));
    } else {
      ToggleOnNarrows(recipes, q, f);
      ToggleOnNarrows(recipes, q1, g);
      SubseqTrans(GetFilteredRecipes(recipes, q2), GetFilteredRecipes(recipes, q1), GetFilteredRecipes(recipes, q));
    }
  }
}
