/** The client-side recipe filter `getFilteredRecipes`: a fixed chain of
    AND-ed filters applied to a copy of the recipe list. */
module RecipeFilter {
  import opened Recipes
  import opened Text
  import opened Sequences

  /** Ingredient fragments that mark a recipe as containing gluten. */
  const GlutenKeywords: seq<string> := ["blé", "farine", "pâte", "pâtes", "biscuit", "pain"]

  /** Ingredient fragments that mark a recipe as not vegetarian. */
  const VegeKeywords: seq<string> := ["viande", "poulet", "poisson", "boeuf", "porc", "dinde", "agneau"]

  /** Everything the filter reads besides the recipe list: the active
      category (`None` for `null`), the set of active combinable filters, and
      the raw text of the title and ingredient search boxes. */
  datatype Query = Query(
    category: Option<string>,
    combi: set<string>,
    titleInput: string,
    ingredientInput: string
  )

  /** `if (activeCategory)`: `null` and the empty string are both falsy. */
  predicate CategoryActive(c: Option<string>) {
    c.Some? && c.value != ""
  }

  /** Some keyword occurs in the lower-cased ingredient text. */
  predicate MentionsAny(ingredient: string, keywords: seq<string>) {
    exists k :: k in keywords && Contains(Lower(ingredient), k)
  }

  /** Some ingredient of `r` mentions one of the keywords. */
  predicate HasIngredientMentioning(r: Recipe, keywords: seq<string>) {
    exists i :: i in r.ingredients && MentionsAny(i, keywords)
  }

  /** Some lower-cased ingredient of `r` contains `term`. */
  predicate HasIngredientContaining(r: Recipe, term: string) {
    exists i :: i in r.ingredients && Contains(Lower(i), term)
  }

  /** The lower-cased title of `r` contains `term`. */
  predicate TitleContains(r: Recipe, term: string) {
    Contains(Lower(r.title), term)
  }

  // Each active filter of the chain, written as "inactive, or the test holds".

  predicate PassesCategory(r: Recipe, q: Query) {
    CategoryActive(q.category) ==> r.category == q.category.value
  }

  predicate PassesGluten(r: Recipe, q: Query) {
    "gluten" in q.combi ==> !HasIngredientMentioning(r, GlutenKeywords)
  }

  predicate PassesVege(r: Recipe, q: Query) {
    "vege" in q.combi ==> !HasIngredientMentioning(r, VegeKeywords)
  }

  predicate PassesTitle(r: Recipe, q: Query) {
    Lower(q.titleInput) != "" ==> TitleContains(r, Lower(q.titleInput))
  }

  predicate PassesIngredient(r: Recipe, q: Query) {
    Lower(q.ingredientInput) != "" ==> HasIngredientContaining(r, Lower(q.ingredientInput))
  }

  /** A recipe is shown exactly when it passes every filter. */
  predicate Matches(r: Recipe, q: Query) {
    && PassesCategory(r, q)
    && PassesGluten(r, q)
    && PassesVege(r, q)
    && PassesTitle(r, q)
    && PassesIngredient(r, q)
  }

  // The five steps of the chain, each run only when its filter is active.

  function CategoryStep(s: seq<Recipe>, q: Query): (r: seq<Recipe>)
    ensures r == Filter(s, (x: Recipe) => PassesCategory(x, q))
  {
    if CategoryActive(q.category) then
      var c := q.category.value;
      var r := Filter(s, (x: Recipe) => x.category == c);
      FilterCongruent(s, (x: Recipe) => x.category == c, (x: Recipe) => PassesCategory(x, q));
      r
    else
      FilterKeepsAll(s, (x: Recipe) => PassesCategory(x, q));
      s
  }

  function GlutenStep(s: seq<Recipe>, q: Query): (r: seq<Recipe>)
    ensures r == Filter(s, (x: Recipe) => PassesGluten(x, q))
  {
    if "gluten" in q.combi then
      var r := Filter(s, (x: Recipe) => !HasIngredientMentioning(x, GlutenKeywords));
      FilterCongruent(s, (x: Recipe) => !HasIngredientMentioning(x, GlutenKeywords), (x: Recipe) => PassesGluten(x, q));
      r
    else
      FilterKeepsAll(s, (x: Recipe) => PassesGluten(x, q));
      s
  }

  function VegeStep(s: seq<Recipe>, q: Query): (r: seq<Recipe>)
    ensures r == Filter(s, (x: Recipe) => PassesVege(x, q))
  {
    if "vege" in q.combi then
      var r := Filter(s, (x: Recipe) => !HasIngredientMentioning(x, VegeKeywords));
      FilterCongruent(s, (x: Recipe) => !HasIngredientMentioning(x, VegeKeywords), (x: Recipe) => PassesVege(x, q));
      r
    else
      FilterKeepsAll(s, (x: Recipe) => PassesVege(x, q));
      s
  }

  function TitleStep(s: seq<Recipe>, q: Query): (r: seq<Recipe>)
    ensures r == Filter(s, (x: Recipe) => PassesTitle(x, q))
  {
    var term := Lower(q.titleInput);
    if term != "" then
      var r := Filter(s, (x: Recipe) => TitleContains(x, term));
      FilterCongruent(s, (x: Recipe) => TitleContains(x, term), (x: Recipe) => PassesTitle(x, q));
      r
    else
      FilterKeepsAll(s, (x: Recipe) => PassesTitle(x, q));
      s
  }

  function IngredientStep(s: seq<Recipe>, q: Query): (r: seq<Recipe>)
    ensures r == Filter(s, (x: Recipe) => PassesIngredient(x, q))
  {
    var term := Lower(q.ingredientInput);
    if term != "" then
      var r := Filter(s, (x: Recipe) => HasIngredientContaining(x, term));
      FilterCongruent(s, (x: Recipe) => HasIngredientContaining(x, term), (x: Recipe) => PassesIngredient(x, q));
      r
    else
      FilterKeepsAll(s, (x: Recipe) => PassesIngredient(x, q));
      s
  }

  /** `getFilteredRecipes()`: category, then gluten, then vege, then title
      search, then ingredient search. The result is an order-preserving
      subsequence of the input holding every occurrence of each matching
      recipe and nothing else. */
  function GetFilteredRecipes(recipes: seq<Recipe>, q: Query): (out: seq<Recipe>)
    ensures SubseqOf(out, recipes)
    ensures forall r :: r in out <==> r in recipes && Matches(r, q)
    ensures forall r :: multiset(out)[r] == if Matches(r, q) then multiset(recipes)[r] else 0
  {
    var s1 := CategoryStep(recipes, q);
    var s2 := GlutenStep(s1, q);
    var s3 := VegeStep(s2, q);
    var s4 := TitleStep(s3, q);
    var s5 := IngredientStep(s4, q);
    PipelineIsOneFilter(recipes, q);
    s5
  }

  /** The chain of five filters is one filter by the conjunction `Matches`. */
  lemma PipelineIsOneFilter(recipes: seq<Recipe>, q: Query)
    ensures IngredientStep(TitleStep(VegeStep(GlutenStep(CategoryStep(recipes, q), q), q), q), q)
            == Filter(recipes, (x: Recipe) => Matches(x, q))
  {
    var p1 := (x: Recipe) => PassesCategory(x, q);
    var p2 := (x: Recipe) => PassesGluten(x, q);
    var p3 := (x: Recipe) => PassesVege(x, q);
    var p4 := (x: Recipe) => PassesTitle(x, q);
    var p5 := (x: Recipe) => PassesIngredient(x, q);
    var p12 := (x: Recipe) => p1(x) && p2(x);
    var p123 := (x: Recipe) => p12(x) && p3(x);
    var p1234 := (x: Recipe) => p123(x) && p4(x);
    var all := (x: Recipe) => Matches(x, q);
    FilterFuse(recipes, p1, p2, p12);
    FilterFuse(recipes, p12, p3, p123);
    FilterFuse(recipes, p123, p4, p1234);
    FilterFuse(recipes, p1234, p5, all);
  }

  /** `GetFilteredRecipes` is the single filter by `Matches`. */
  lemma FilteredIsOneFilter(recipes: seq<Recipe>, q: Query)
    ensures GetFilteredRecipes(recipes, q) == Filter(recipes, (x: Recipe) => Matches(x, q))
  {
    PipelineIsOneFilter(recipes, q);
  }

  /** Switching one more filter on keeps a subset of what was shown before,
      in the same order. */
  lemma MatchesNarrowing(recipes: seq<Recipe>, q: Query, q': Query)
    requires forall x :: Matches(x, q') ==> Matches(x, q)
    ensures GetFilteredRecipes(recipes, q') == Filter(GetFilteredRecipes(recipes, q), (x: Recipe) => Matches(x, q'))
    ensures SubseqOf(GetFilteredRecipes(recipes, q'), GetFilteredRecipes(recipes, q))
  {
    FilteredIsOneFilter(recipes, q);
    FilteredIsOneFilter(recipes, q');
    FilterFuse(recipes, (x: Recipe) => Matches(x, q), (x: Recipe) => Matches(x, q'), (x: Recipe) => Matches(x, q'));
  }

  /** No category, no known combinable filter and two empty search boxes:
      every recipe is shown, in its original order. */
  lemma NoFilterShowsAll(recipes: seq<Recipe>, q: Query)
    requires !CategoryActive(q.category)
    requires "gluten" !in q.combi && "vege" !in q.combi
    requires q.titleInput == "" && q.ingredientInput == ""
    ensures GetFilteredRecipes(recipes, q) == recipes
  {
    FilteredIsOneFilter(recipes, q);
    FilterKeepsAll(recipes, (x: Recipe) => Matches(x, q));
  }

  /** When `q` asks for everything `q'` asks for plus the test `t`, the
      result for `q` is the result for `q'` filtered by `t`. */
  lemma NarrowBy(recipes: seq<Recipe>, q: Query, q': Query, t: Recipe -> bool)
    requires forall x :: Matches(x, q) == (Matches(x, q') && t(x))
    ensures GetFilteredRecipes(recipes, q) == Filter(GetFilteredRecipes(recipes, q'), t)
  {
    FilteredIsOneFilter(recipes, q);
    FilteredIsOneFilter(recipes, q');
    FilterFuse(recipes, (x: Recipe) => Matches(x, q'), t, (x: Recipe) => Matches(x, q));
  }

  /** With a category selected, the result is what the other filters keep,
      narrowed to exactly the recipes of that category. */
  lemma CategoryFilterExact(recipes: seq<Recipe>, q: Query)
    requires CategoryActive(q.category)
    ensures GetFilteredRecipes(recipes, q)
            == Filter(GetFilteredRecipes(recipes, q.(category := None)), (x: Recipe) => x.category == q.category.value)
    ensures forall r :: r in GetFilteredRecipes(recipes, q) ==> r.category == q.category.value
    ensures forall r :: r in GetFilteredRecipes(recipes, q.(category := None)) && r.category == q.category.value
                        ==> r in GetFilteredRecipes(recipes, q)
  {
    var q' := q.(category := None);
    var c := q.category.value;
    var t := (x: Recipe) => x.category == c;
    forall x ensures Matches(x, q) == (Matches(x, q') && t(x)) {
      assert PassesCategory(x, q) == t(x);
    }
    NarrowBy(recipes, q, q', t);
  }

  /** With "gluten" on, the result is what the other filters keep minus
      every recipe with an ingredient mentioning a gluten keyword. */
  lemma GlutenFilterExact(recipes: seq<Recipe>, q: Query)
    requires "gluten" in q.combi
    ensures GetFilteredRecipes(recipes, q)
            == Filter(GetFilteredRecipes(recipes, q.(combi := q.combi - {"gluten"})),
                      (x: Recipe) => !HasIngredientMentioning(x, GlutenKeywords))
  {
    var q' := q.(combi := q.combi - {"gluten"});
    var t := (x: Recipe) => !HasIngredientMentioning(x, GlutenKeywords);
    forall x ensures Matches(x, q) == (Matches(x, q') && t(x)) {
      assert PassesGluten(x, q) == t(x);
      assert PassesVege(x, q) == PassesVege(x, q');
    }
    NarrowBy(recipes, q, q', t);
  }

  /** With "gluten" on, no shown recipe has an ingredient whose lower-cased
      text contains "blé", "farine", "pâte", "pâtes", "biscuit" or "pain". */
  lemma GlutenFilterExcludesKeywords(recipes: seq<Recipe>, q: Query)
    requires "gluten" in q.combi
    ensures forall r, i :: r in GetFilteredRecipes(recipes, q) && i in r.ingredients ==>
              && !Contains(Lower(i), "blé")
              && !Contains(Lower(i), "farine")
              && !Contains(Lower(i), "pâte")
              && !Contains(Lower(i), "pâtes")
              && !Contains(Lower(i), "biscuit")
              && !Contains(Lower(i), "pain")
  {
    forall r, i | r in GetFilteredRecipes(recipes, q) && i in r.ingredients
      ensures && !Contains(Lower(i), "blé")
              && !Contains(Lower(i), "farine")
              && !Contains(Lower(i), "pâte")
              && !Contains(Lower(i), "pâtes")
              && !Contains(Lower(i), "biscuit")
              && !Contains(Lower(i), "pain")
    {
      assert Matches(r, q);
      assert !MentionsAny(i, GlutenKeywords);
      NoGlutenKeyword(i);
    }
  }

  lemma NoGlutenKeyword(i: string)
    requires !MentionsAny(i, GlutenKeywords)
    ensures && !Contains(Lower(i), "blé")
            && !Contains(Lower(i), "farine")
            && !Contains(Lower(i), "pâte")
            && !Contains(Lower(i), "pâtes")
            && !Contains(Lower(i), "biscuit")
            && !Contains(Lower(i), "pain")
  {
    assert GlutenKeywords[0] == "blé" && GlutenKeywords[1] == "farine" && GlutenKeywords[2] == "pâte";
    assert GlutenKeywords[3] == "pâtes" && GlutenKeywords[4] == "biscuit" && GlutenKeywords[5] == "pain";
  }

  /** The keyword "pâtes" never changes the gluten verdict: every text that
      contains it also contains "pâte". */
  lemma PatesSubsumedByPate(ingredient: string)
    ensures MentionsAny(ingredient, GlutenKeywords)
            <==> MentionsAny(ingredient, ["blé", "farine", "pâte", "biscuit", "pain"])
  {
    var low := Lower(ingredient);
    if Contains(low, "pâtes") {
      assert "pâtes" == "pâte" + "s";
      ContainsPrefixOfNeedle(low, "pâte", "s");
      assert "pâte" in ["blé", "farine", "pâte", "biscuit", "pain"];
    }
  }

  /** With "vege" on, the result is what the other filters keep minus every
      recipe with an ingredient mentioning a meat or fish keyword. */
  lemma VegeFilterExact(recipes: seq<Recipe>, q: Query)
    requires "vege" in q.combi
    ensures GetFilteredRecipes(recipes, q)
            == Filter(GetFilteredRecipes(recipes, q.(combi := q.combi - {"vege"})),
                      (x: Recipe) => !HasIngredientMentioning(x, VegeKeywords))
  {
    var q' := q.(combi := q.combi - {"vege"});
    var t := (x: Recipe) => !HasIngredientMentioning(x, VegeKeywords);
    forall x ensures Matches(x, q) == (Matches(x, q') && t(x)) {
      assert PassesVege(x, q) == t(x);
      assert PassesGluten(x, q) == PassesGluten(x, q');
    }
    NarrowBy(recipes, q, q', t);
  }

  /** With "vege" on, no shown recipe has an ingredient whose lower-cased
      text contains "viande", "poulet", "poisson", "boeuf", "porc", "dinde"
      or "agneau". */
  lemma VegeFilterExcludesKeywords(recipes: seq<Recipe>, q: Query)
    requires "vege" in q.combi
    ensures forall r, i :: r in GetFilteredRecipes(recipes, q) && i in r.ingredients ==>
              && !Contains(Lower(i), "viande")
              && !Contains(Lower(i), "poulet")
              && !Contains(Lower(i), "poisson")
              && !Contains(Lower(i), "boeuf")
              && !Contains(Lower(i), "porc")
              && !Contains(Lower(i), "dinde")
              && !Contains(Lower(i), "agneau")
  {
    forall r, i | r in GetFilteredRecipes(recipes, q) && i in r.ingredients
      ensures && !Contains(Lower(i), "viande")
              && !Contains(Lower(i), "poulet")
              && !Contains(Lower(i), "poisson")
              && !Contains(Lower(i), "boeuf")
              && !Contains(Lower(i), "porc")
              && !Contains(Lower(i), "dinde")
              && !Contains(Lower(i), "agneau")
    {
      assert Matches(r, q);
      assert !MentionsAny(i, VegeKeywords);
      NoVegeKeyword(i);
    }
  }

  lemma NoVegeKeyword(i: string)
    requires !MentionsAny(i, VegeKeywords)
    ensures && !Contains(Lower(i), "viande")
            && !Contains(Lower(i), "poulet")
            && !Contains(Lower(i), "poisson")
            && !Contains(Lower(i), "boeuf")
            && !Contains(Lower(i), "porc")
            && !Contains(Lower(i), "dinde")
            && !Contains(Lower(i), "agneau")
  {
    assert VegeKeywords[0] == "viande" && VegeKeywords[1] == "poulet" && VegeKeywords[2] == "poisson";
    assert VegeKeywords[3] == "boeuf" && VegeKeywords[4] == "porc" && VegeKeywords[5] == "dinde";
    assert VegeKeywords[6] == "agneau";
  }

  /** Two queries that accept the same recipes show the same list. */
  lemma SameMatchesSameResult(recipes: seq<Recipe>, q: Query, q': Query)
    requires forall x :: Matches(x, q) == Matches(x, q')
    ensures GetFilteredRecipes(recipes, q) == GetFilteredRecipes(recipes, q')
  {
    NarrowBy(recipes, q, q', (x: Recipe) => true);
    FilterKeepsAll(GetFilteredRecipes(recipes, q'), (x: Recipe) => true);
  }

  /** Combinable filters other than "gluten" and "vege" have no effect. */
  lemma UnknownCombiFiltersIgnored(recipes: seq<Recipe>, q: Query)
    ensures GetFilteredRecipes(recipes, q) == GetFilteredRecipes(recipes, q.(combi := q.combi * {"gluten", "vege"}))
  {
    var q' := q.(combi := q.combi * {"gluten", "vege"});
    forall x ensures Matches(x, q) == Matches(x, q') {
      assert PassesGluten(x, q) == PassesGluten(x, q');
      assert PassesVege(x, q) == PassesVege(x, q');
    }
    SameMatchesSameResult(recipes, q, q');
  }

  /** The title search keeps, of what the other filters keep, exactly the
      recipes whose lower-cased title contains the lower-cased term; an empty
      term keeps everything. */
  lemma TitleSearchExact(recipes: seq<Recipe>, q: Query)
    ensures GetFilteredRecipes(recipes, q)
            == Filter(GetFilteredRecipes(recipes, q.(titleInput := "")),
                      (x: Recipe) => Contains(Lower(x.title), Lower(q.titleInput)))
    ensures forall r :: r in GetFilteredRecipes(recipes, q) <==>
              r in GetFilteredRecipes(recipes, q.(titleInput := ""))
              && Contains(Lower(r.title), Lower(q.titleInput))
    ensures Lower(q.titleInput) == "" ==>
              GetFilteredRecipes(recipes, q) == GetFilteredRecipes(recipes, q.(titleInput := ""))
  {
    var q' := q.(titleInput := "");
    var term := Lower(q.titleInput);
    var t := (x: Recipe) => Contains(Lower(x.title), term);
    assert Lower("") == "";
    forall x ensures Matches(x, q) == (Matches(x, q') && t(x)) {
      if term == "" {
        ContainsEmpty(Lower(x.title));
      }
      assert PassesTitle(x, q) == t(x);
      assert PassesTitle(x, q');
      assert PassesIngredient(x, q) == PassesIngredient(x, q');
    }
    NarrowBy(recipes, q, q', t);
    if term == "" {
      var kept := GetFilteredRecipes(recipes, q');
      forall i | 0 <= i < |kept| ensures t(kept[i]) {
        ContainsEmpty(Lower(kept[i].title));
      }
      FilterKeepsAll(kept, t);
    }
  }

  /** A non-empty ingredient search keeps, of what the other filters keep,
      exactly the recipes with an ingredient whose lower-cased text contains
      the lower-cased term. An empty term is skipped, so it keeps even a
      recipe without ingredients. */
  lemma IngredientSearchExact(recipes: seq<Recipe>, q: Query)
    ensures GetFilteredRecipes(recipes, q)
            == Filter(GetFilteredRecipes(recipes, q.(ingredientInput := "")),
                      (x: Recipe) => PassesIngredient(x, q))
    ensures Lower(q.ingredientInput) != "" ==>
              forall r :: r in GetFilteredRecipes(recipes, q) <==>
                r in GetFilteredRecipes(recipes, q.(ingredientInput := ""))
                && exists i :: i in r.ingredients && Contains(Lower(i), Lower(q.ingredientInput))
    ensures Lower(q.ingredientInput) == "" ==>
              GetFilteredRecipes(recipes, q) == GetFilteredRecipes(recipes, q.(ingredientInput := ""))
  {
    var q' := q.(ingredientInput := "");
    var t := (x: Recipe) => PassesIngredient(x, q);
    assert Lower("") == "";
    forall x ensures Matches(x, q) == (Matches(x, q') && t(x)) {
      assert PassesIngredient(x, q');
      assert PassesTitle(x, q) == PassesTitle(x, q');
    }
    NarrowBy(recipes, q, q', t);
    if Lower(q.ingredientInput) == "" {
      FilterKeepsAll(GetFilteredRecipes(recipes, q'), t);
    }
  }

  /** Both searches ignore the case of what is typed. */
  lemma SearchIgnoresCase(recipes: seq<Recipe>, q: Query)
    ensures GetFilteredRecipes(recipes, q)
            == GetFilteredRecipes(recipes, q.(titleInput := Lower(q.titleInput),
                                              ingredientInput := Lower(q.ingredientInput)))
  {
    var q' := q.(titleInput := Lower(q.titleInput), ingredientInput := Lower(q.ingredientInput));
    LowerIdempotent(q.titleInput);
    LowerIdempotent(q.ingredientInput);
    forall x ensures Matches(x, q) == Matches(x, q') {
      assert PassesTitle(x, q) == PassesTitle(x, q');
      assert PassesIngredient(x, q) == PassesIngredient(x, q');
    }
    SameMatchesSameResult(recipes, q, q');
  }

  /** Two sample recipes: a tart made with flour and a salad. */
  const Tarte := Recipe("1", "Tarte", "dessert", "30 min", ["farine", "sucre"], "", "", false)
  const Salade := Recipe("2", "Salade", "entrée", "10 min", ["tomate", "basilic"], "", "", true)

  /** Selecting "dessert" shows the tart only; the gluten filter hides the
      tart, whose flour mentions "farine", and shows the salad. */
  lemma SampleScenario()
    ensures GetFilteredRecipes([Tarte, Salade], Query(Some("dessert"), {}, "", "")) == [Tarte]
    ensures GetFilteredRecipes([Tarte, Salade], Query(None, {"gluten"}, "", "")) == [Salade]
  {
    var byCategory := Query(Some("dessert"), {}, "", "");
    var gluten := Query(None, {"gluten"}, "", "");
    FilteredIsOneFilter([Tarte, Salade], byCategory);
    FilteredIsOneFilter([Tarte, Salade], gluten);
    assert Lower("") == "";
    assert Matches(Tarte, byCategory);
    assert !Matches(Salade, byCategory);
    TarteHasGluten();
    assert !Matches(Tarte, gluten);
    SaladeHasNoGluten();
    assert Matches(Salade, gluten);
  }

  lemma TarteHasGluten()
    ensures HasIngredientMentioning(Tarte, GlutenKeywords)
  {
    assert Lower("farine") == "farine";
    assert OccursAt("farine", "farine", 0);
    assert Contains(Lower("farine"), "farine");
    assert GlutenKeywords[1] == "farine" && "farine" in GlutenKeywords;
    assert MentionsAny("farine", GlutenKeywords);
    assert "farine" in Tarte.ingredients;
  }

  lemma SaladeHasNoGluten()
    ensures !HasIngredientMentioning(Salade, GlutenKeywords)
  {
    NoGlutenIn("tomate", ['b', 'f', 'p', 'p', 'b', 'p']);
    NoGlutenIn("basilic", ['é', 'f', 'p', 'p', 'u', 'p']);
    assert forall i :: i in Salade.ingredients <==> i == "tomate" || i == "basilic";
  }

  /** `missing[j]` is a character of the `j`-th gluten keyword that the
      lower-case text `s` lacks, so `s` mentions no gluten keyword. */
  lemma NoGlutenIn(s: string, missing: seq<char>)
    requires Lower(s) == s
    requires |missing| == |GlutenKeywords|
    requires forall j :: 0 <= j < |missing| ==> missing[j] in GlutenKeywords[j] && missing[j] !in s
    ensures !MentionsAny(s, GlutenKeywords)
  {
    forall j | 0 <= j < |GlutenKeywords|
      ensures !Contains(s, GlutenKeywords[j])
    {
      MissingCharNotContained(s, GlutenKeywords[j], missing[j]);
    }
  }
}
